/**
 * The search endpoint of the web service (main.py): the blank-query guard,
 * the two retrieval paths, and the title and preview shown for each result.
 */
module Api {
  import opened Wrappers
  import opened PyStr
  import opened Ranking
  import opened Fusion
  import opened Rerank

  /** The title shown for a document without contents. */
  const Untitled: string := "无标题文档"
  /** Titles longer than this are cut. */
  const TitleLength: nat := 40
  /** Previews show at most this many characters of the contents. */
  const PreviewLength: nat := 150
  const Ellipsis: string := "..."
  /** How many hybrid candidates the LLM path hands to the judge. */
  const LlmCandidates: int := 20
  /** The `alpha` argument both paths pass. */
  const Alpha: real := 0.7

  // ----- titles and previews -----

  /**
   * `extract_title` (main.py:44-48): the first line of the contents, stripped,
   * cut to 40 characters with "..." appended when longer; a fixed text when
   * the contents are empty.
   */
  function ExtractTitle(content: string): string {
    if content == [] then Untitled
    else
      var title := Strip(SplitHead(content, "\n"));
      if |title| > TitleLength then title[..TitleLength] + Ellipsis else title
  }

  /** A document without contents gets the fixed title. */
  lemma {:induction false} EmptyContentIsUntitled()
    ensures ExtractTitle([]) == Untitled
  {
  }

  /** No title is longer than 43 characters. */
  lemma {:induction false} TitleLengthBound(content: string)
    ensures |ExtractTitle(content)| <= TitleLength + |Ellipsis|
  {
  }

  /** Every title is a single line. */
  lemma {:induction false} TitleSingleLine(content: string)
    ensures '\n' !in ExtractTitle(content)
  {
    if content != [] {
      FirstLineHasNoBreak(content);
      StripKeepsOut(SplitHead(content, "\n"), '\n');
      CutKeepsOut(Strip(SplitHead(content, "\n")), '\n');
    }
  }

  /** Cutting a line adds no character but the dots. */
  lemma {:induction false} CutKeepsOut(title: string, c: char)
    requires c !in title && c != '.'
    ensures c !in if |title| > TitleLength then title[..TitleLength] + Ellipsis else title
  {
    if |title| > TitleLength {
      var cut := title[..TitleLength];
      assert forall i :: 0 <= i < |cut| ==> cut[i] == title[i];
    }
  }

  /** `s.split("\n")[0]` holds no line break. */
  lemma {:induction false} FirstLineHasNoBreak(s: string)
    ensures '\n' !in SplitHead(s, "\n")
  {
    var head := SplitHead(s, "\n");
    forall i | 0 <= i < |head| ensures head[i] != '\n' {
      assert head[i] == s[i] && s[i..i + 1] == [s[i]];
      assert !OccursAt(s, "\n", i);
    }
  }

  /** Stripping adds no character. */
  lemma {:induction false} StripKeepsOut(s: string, c: char)
    requires c !in s
    ensures c !in Strip(s)
  {
    var l := LStrip(s);
    var t := RStrip(l);
    LStripSuffix(s);
    RStripPrefix(l);
    forall i | 0 <= i < |t| ensures t[i] != c {
      assert t[i] == l[i] == s[|s| - |l| + i];
    }
  }

  /** Only the first line counts: what follows the first line break does not change the title. */
  lemma {:induction false} TitleIgnoresLaterLines(first: string, rest: string)
    requires first != [] && '\n' !in first
    ensures ExtractTitle(first + "\n" + rest) == ExtractTitle(first)
  {
    SplitHeadAt(first, '\n', rest);
    SplitHeadAbsent(first, '\n');
  }

  /** A trimmed single line of at most 40 characters is its own title. */
  lemma {:induction false} ShortLineIsTitle(line: string)
    requires line != [] && '\n' !in line && Trimmed(line) && |line| <= TitleLength
    ensures ExtractTitle(line) == line
  {
    SplitHeadAbsent(line, '\n');
    StripTrimmed(line);
  }

  /** A longer trimmed line is cut to its first 40 characters, followed by "...". */
  lemma {:induction false} LongLineIsCut(line: string)
    requires '\n' !in line && Trimmed(line) && |line| > TitleLength
    ensures ExtractTitle(line) == line[..TitleLength] + Ellipsis
  {
    SplitHeadAbsent(line, '\n');
    StripTrimmed(line);
  }

  /**
   * Contents whose first line is blank get an empty title, not the
   * fixed text for empty contents.
   */
  lemma {:induction false} BlankFirstLineGivesEmptyTitle(blank: string, rest: string)
    requires AllSpace(blank) && '\n' !in blank
    ensures ExtractTitle(blank + "\n" + rest) == []
  {
    SplitHeadAt(blank, '\n', rest);
    AllSpaceStripsAway(blank);
  }

  /** `content[:150].replace("\n", " ") + "..."` */
  function Preview(content: string): string {
    ReplaceAll(Take(content, PreviewLength), "\n", " ") + Ellipsis
  }

  /**
   * The preview is the first 150 characters of the contents with each line
   * break turned into a space, followed by "...".
   */
  lemma {:induction false} PreviewFacts(content: string)
    ensures var n := if |content| < PreviewLength then |content| else PreviewLength;
      && |Preview(content)| == n + |Ellipsis|
      && (forall i :: 0 <= i < n ==> Preview(content)[i] == if content[i] == '\n' then ' ' else content[i])
      && Preview(content)[n..] == Ellipsis
    ensures '\n' !in Preview(content)
  {
    var head := Take(content, PreviewLength);
    ReplaceCharAt(head, '\n', ' ');
    var body := ReplaceAll(head, "\n", " ");
    var r := Preview(content);
    assert forall i :: 0 <= i < |body| ==> r[i] == body[i];
    assert forall i :: 0 <= i < |Ellipsis| ==> r[|body| + i] == Ellipsis[i];
    assert forall i :: 0 <= i < |r| ==> r[i] != '\n';
  }

  // ----- the endpoint -----

  /** The body of a search request. */
  datatype Request = Request(query: string, topK: int, useLlm: bool)

  /** One entry of the response's `data`. */
  datatype Item = Item(docid: string, url: string, score: real, title: string, preview: string)

  /**
   * What `search_api` answers: HTTP 400 for a blank query, `code` 200 with
   * the items, or `code` 500 when the search raised.
   */
  datatype Response = BadRequest | Ok(data: seq<Item>) | Failed

  /** The item shown for one reranked document. */
  function RerankedItem(r: Reranked): (item: Item)
    ensures item.docid == r.docid && item.score == r.finalScore
  {
    Item(r.docid, r.url, r.finalScore, ExtractTitle(r.contents), Preview(r.contents))
  }

  /** The item shown for one hybrid hit: the stored document's URL and contents, "" when the lookup fails. */
  function HitItem(h: Result, store: string -> Lookup): (r: Item)
    ensures r.docid == h.docid && r.score == h.score
  {
    match store(h.docid)
    case Found(url, contents) => Item(h.docid, url, h.score, ExtractTitle(contents), Preview(contents))
    case _ => Item(h.docid, "", h.score, ExtractTitle(""), Preview(""))
  }

  /** `[f(x) for x in s]` */
  function Map<A, B>(s: seq<A>, f: A -> B): (r: seq<B>)
    ensures |r| == |s|
    ensures forall i :: 0 <= i < |s| ==> r[i] == f(s[i])
  {
    if s == [] then [] else Map(s[..|s| - 1], f) + [f(s[|s| - 1])]
  }

  /**
   * The loops that build the response's `data` (main.py:61-68 and 74-90):
   * one item per result, in order.
   */
  method BuildItems<A>(results: seq<A>, item: A -> Item) returns (data: seq<Item>)
    ensures data == Map(results, item)
  {
    data := [];
    for i := 0 to |results|
      invariant data == Map(results[..i], item)
    {
      assert results[..i + 1][..i] == results[..i];
      data := data + [item(results[i])];
    }
    assert results[..|results|] == results;
  }

  /** The query is blank: `query.strip()` is empty. */
  predicate Blank(query: string) {
    Strip(query) == []
  }

  /**
   * What `search_api` answers as written. The LLM path reranks 20 hybrid
   * candidates; the hybrid-only path passes `alpha` to `hybrid_search`,
   * which has no such parameter, so the call raises before any search.
   */
  function SearchSpec(req: Request, rs: Retrievers, store: string -> Lookup,
                      judge: string -> Option<string>, decode: string -> Option<seq<JudgeItem>>): Response
  {
    if Blank(req.query) then BadRequest
    else if !req.useLlm then Failed
    else LlmAnswer(RerankSpec(req.query, LlmCandidates, req.topK, rs, store, judge, decode))
  }

  /** The answer of the LLM path, given what `llm_rerank` returned (`None`: it raised). */
  function LlmAnswer(results: Option<seq<Reranked>>): Response {
    match results
    case None => Failed
    case Some(rs) => Ok(Map(rs, RerankedItem))
  }

  /** `search_api` (main.py:51-97), as written. */
  method SearchApi(req: Request, rs: Retrievers, store: string -> Lookup,
                   judge: string -> Option<string>, decode: string -> Option<seq<JudgeItem>>) returns (resp: Response)
    ensures resp == SearchSpec(req, rs, store, judge, decode)
  {
    if Blank(req.query) {
      return BadRequest;
    }
    if !req.useLlm {
      return Failed;
    }
    var results := LlmRerank(req.query, LlmCandidates, req.topK, Alpha, rs, store, judge, decode);
    if results.None? {
      return Failed;
    }
    var data := BuildItems(results.value, RerankedItem);
    return Ok(data);
  }

  /** Exactly the blank queries are rejected with HTTP 400. */
  lemma {:induction false} BlankQueryRejected(req: Request, rs: Retrievers, store: string -> Lookup,
                           judge: string -> Option<string>, decode: string -> Option<seq<JudgeItem>>)
    ensures SearchSpec(req, rs, store, judge, decode) == BadRequest <==> Blank(req.query)
  {
  }

  /** As written, the hybrid-only path answers 500 for every non-blank query. */
  lemma {:induction false} HybridOnlyAlwaysFails(req: Request, rs: Retrievers, store: string -> Lookup,
                              judge: string -> Option<string>, decode: string -> Option<seq<JudgeItem>>)
    requires !Blank(req.query) && !req.useLlm
    ensures SearchSpec(req, rs, store, judge, decode) == Failed
  {
  }

  /**
   * `data` shows the reranked `results` one for one, in order, with their
   * docids and final scores and a single-line title and preview: scores
   * non-increasing, at most `top_k` items when `top_k` is not negative.
   */
  predicate ShowsReranked(data: seq<Item>, results: seq<Reranked>, topK: int) {
    && |data| == |results|
    && (topK >= 0 ==> |data| <= topK)
    && (forall i :: 0 <= i < |data| ==> data[i].docid == results[i].docid && data[i].score == results[i].finalScore)
    && (forall i :: 0 <= i < |data| ==> '\n' !in data[i].title && '\n' !in data[i].preview)
    && (forall i, j :: 0 <= i < j < |data| ==> data[i].score >= data[j].score)
  }

  /** The LLM path answers 200 exactly when both retrievers answer, showing the reranked documents. */
  lemma {:induction false} LlmPathAnswers(req: Request, rs: Retrievers, store: string -> Lookup,
                       judge: string -> Option<string>, decode: string -> Option<seq<JudgeItem>>)
    requires !Blank(req.query) && req.useLlm
    ensures SearchSpec(req, rs, store, judge, decode).Ok? <==> HybridSpec(req.query, LlmCandidates, RerankRrfK, rs).Some?
    ensures SearchSpec(req, rs, store, judge, decode).Ok? ==>
      ShowsReranked(SearchSpec(req, rs, store, judge, decode).data,
                    RerankSpec(req.query, LlmCandidates, req.topK, rs, store, judge, decode).value, req.topK)
  {
    var res := RerankSpec(req.query, LlmCandidates, req.topK, rs, store, judge, decode);
    RerankFailsWithHybrid(req.query, LlmCandidates, req.topK, rs, store, judge, decode);
    if res.Some? {
      RerankSpecFacts(req.query, LlmCandidates, req.topK, rs, store, judge, decode);
    }
    LlmAnswerShows(res, req.topK);
  }

  /** What the LLM path answers for a rerank outcome that is in score order and within `top_k`. */
  lemma {:induction false} LlmAnswerShows(res: Option<seq<Reranked>>, topK: int)
    requires res.Some? ==> NonIncreasing(res.value, FinalScoreOf) && (topK >= 0 ==> |res.value| <= topK)
    ensures LlmAnswer(res).Ok? <==> res.Some?
    ensures LlmAnswer(res).Ok? ==> ShowsReranked(LlmAnswer(res).data, res.value, topK)
  {
    if res.Some? {
      RerankedItemsShow(res.value, topK);
    }
  }

  /** The items built from reranked documents show them one for one. */
  lemma {:induction false} RerankedItemsShow(results: seq<Reranked>, topK: int)
    requires NonIncreasing(results, FinalScoreOf) && (topK >= 0 ==> |results| <= topK)
    ensures ShowsReranked(Map(results, RerankedItem), results, topK)
  {
    forall r: Reranked ensures '\n' !in RerankedItem(r).title && '\n' !in RerankedItem(r).preview {
      ItemSingleLine(r.contents);
    }
    MapShowsReranked(results, RerankedItem, topK);
  }

  /** The title and preview of a document are single lines. */
  lemma {:induction false} ItemSingleLine(content: string)
    ensures '\n' !in ExtractTitle(content) && '\n' !in Preview(content)
  {
    TitleSingleLine(content);
    PreviewFacts(content);
  }

  /** Items that keep each result's docid and final score on single lines show the results one for one. */
  lemma {:induction false} MapShowsReranked(results: seq<Reranked>, item: Reranked -> Item, topK: int)
    requires NonIncreasing(results, FinalScoreOf) && (topK >= 0 ==> |results| <= topK)
    requires forall r :: item(r).docid == r.docid && item(r).score == r.finalScore
    requires forall r :: '\n' !in item(r).title && '\n' !in item(r).preview
    ensures ShowsReranked(Map(results, item), results, topK)
  {
    var data := Map(results, item);
    forall i | 0 <= i < |data|
      ensures data[i].docid == results[i].docid && data[i].score == results[i].finalScore
      ensures '\n' !in data[i].title && '\n' !in data[i].preview
    {
      assert data[i] == item(results[i]);
    }
    forall i, j | 0 <= i < j < |data| ensures data[i].score >= data[j].score {
      assert FinalScoreOf(results[i]) >= FinalScoreOf(results[j]);
    }
  }

  // ----- the hybrid-only path as evidently intended -----

  /** `search_api` with the hybrid-only path calling `hybrid_search(query, top_k=top_k)`. */
  function SearchIntendedSpec(req: Request, rs: Retrievers, store: string -> Lookup,
                              judge: string -> Option<string>, decode: string -> Option<seq<JudgeItem>>): Response
  {
    if Blank(req.query) || req.useLlm then SearchSpec(req, rs, store, judge, decode)
    else
      match HybridSpec(req.query, req.topK, DefaultRrfK, rs)
      case None => Failed
      case Some(hits) => Ok(Map(hits, h => HitItem(h, store)))
  }

  /** `search_api` with the hybrid-only call corrected (main.py:70-90). */
  method SearchApiIntended(req: Request, rs: Retrievers, store: string -> Lookup,
                           judge: string -> Option<string>, decode: string -> Option<seq<JudgeItem>>) returns (resp: Response)
    ensures resp == SearchIntendedSpec(req, rs, store, judge, decode)
  {
    if Blank(req.query) || req.useLlm {
      resp := SearchApi(req, rs, store, judge, decode);
      return;
    }
    var hits := HybridSearch(req.query, req.topK, DefaultRrfK, rs);
    if hits.None? {
      return Failed;
    }
    var data := BuildItems(hits.value, h => HitItem(h, store));
    return Ok(data);
  }

  /**
   * `data` shows `hits` one for one, in order, with their docids and scores:
   * at most `max(top_k, 1)` items, scores non-increasing.
   */
  predicate ShowsHits(data: seq<Item>, hits: seq<Result>, topK: int) {
    && |data| == |hits| <= Limit(topK)
    && (forall i :: 0 <= i < |data| ==> data[i].docid == hits[i].docid && data[i].score == hits[i].score)
    && (forall i, j :: 0 <= i < j < |data| ==> data[i].score >= data[j].score)
  }

  /**
   * Corrected, the hybrid-only path answers 200 exactly when both retrievers
   * answer, showing the hybrid results one for one.
   */
  lemma {:induction false} IntendedHybridOnlyAnswers(req: Request, rs: Retrievers, store: string -> Lookup,
                                  judge: string -> Option<string>, decode: string -> Option<seq<JudgeItem>>)
    requires !Blank(req.query) && !req.useLlm
    ensures SearchIntendedSpec(req, rs, store, judge, decode).Ok? <==> HybridSpec(req.query, req.topK, DefaultRrfK, rs).Some?
    ensures SearchIntendedSpec(req, rs, store, judge, decode).Ok? ==>
      ShowsHits(SearchIntendedSpec(req, rs, store, judge, decode).data, HybridSpec(req.query, req.topK, DefaultRrfK, rs).value, req.topK)
  {
    match HybridSpec(req.query, req.topK, DefaultRrfK, rs)
    case None =>
    case Some(hits) =>
      HybridSpecFacts(req.query, req.topK, DefaultRrfK, rs);
      HitItemsShowHits(hits, store, req.topK);
  }

  /** The items built from results in score order show them one for one. */
  lemma {:induction false} HitItemsShowHits(hits: seq<Result>, store: string -> Lookup, topK: int)
    requires |hits| <= Limit(topK) && NonIncreasing(hits, ScoreOf)
    ensures ShowsHits(Map(hits, h => HitItem(h, store)), hits, topK)
  {
    MapShowsHits(hits, h => HitItem(h, store), topK);
  }

  /** Items that keep each result's docid and score show the results one for one. */
  lemma {:induction false} MapShowsHits(hits: seq<Result>, item: Result -> Item, topK: int)
    requires |hits| <= Limit(topK) && NonIncreasing(hits, ScoreOf)
    requires forall h :: item(h).docid == h.docid && item(h).score == h.score
    ensures ShowsHits(Map(hits, item), hits, topK)
  {
    var data := Map(hits, item);
    forall i, j | 0 <= i < j < |data| ensures data[i].score >= data[j].score {
      assert ScoreOf(hits[i]) >= ScoreOf(hits[j]);
    }
  }
}
