/**
 * The LLM rerank stage (llm_rerank.py): the hybrid hits are looked up in the
 * document store, described to a judge model in a prompt, the judge's JSON
 * reply is parsed defensively, and each candidate is rescored as
 * judge score + 0.1 * hybrid score, sorted and cut.
 */
module Rerank {
  import opened Wrappers
  import opened PyStr
  import opened Ranking
  import opened Fusion

  /** What `searcher.doc(docid)` and `json.loads(doc.raw())` give for one id. */
  datatype Lookup =
    | Missing                               // no stored document
    | Broken                                // the lookup or the decoding raised
    | Found(url: string, contents: string)  // its "url" and "contents", "" when absent

  /** One entry of `docs`: a hybrid hit whose stored document was found. */
  datatype Doc = Doc(docid: string, url: string, contents: string, hybridScore: real)

  /** One element of the judge's JSON array: its "docid" and (numeric) "score" keys, when present. */
  datatype JudgeItem = JudgeItem(docid: Option<string>, score: Option<real>)

  /** One entry of `reranked`. */
  datatype Reranked = Reranked(docid: string, url: string, contents: string, finalScore: real)

  /** How many characters of each document the prompt shows. */
  const ExcerptLength: nat := 300

  /** The RRF constant `llm_rerank` passes to `hybrid_search`. */
  const RerankRrfK: nat := 60

  function HybridScoreOf(d: Doc): real {
    d.hybridScore
  }

  function FinalScoreOf(r: Reranked): real {
    r.finalScore
  }

  // ----- looking the candidates up (llm_rerank.py:66-81) -----

  /** `x` is the entry made for hit `h` from its stored document. */
  predicate FromHit(x: Doc, h: Result, store: string -> Lookup) {
    x.docid == h.docid && x.hybridScore == h.score && store(h.docid) == Found(x.url, x.contents)
  }

  /** The hits whose stored document was found, in hit order, with their hybrid scores. */
  function ResolvedDocs(hits: seq<Result>, store: string -> Lookup): seq<Doc> {
    if hits == [] then []
    else
      var n := |hits| - 1;
      var p := ResolvedDocs(hits[..n], store);
      match store(hits[n].docid)
      case Found(url, contents) => p + [Doc(hits[n].docid, url, contents, hits[n].score)]
      case _ => p
  }

  /**
   * The lookup loop (llm_rerank.py:66-81): a hit whose document is missing,
   * or whose lookup raises, is skipped.
   */
  method ResolveDocs(hits: seq<Result>, store: string -> Lookup) returns (docs: seq<Doc>)
    ensures docs == ResolvedDocs(hits, store)
  {
    docs := [];
    for i := 0 to |hits|
      invariant docs == ResolvedDocs(hits[..i], store)
    {
      assert hits[..i + 1][..i] == hits[..i];
      var h := hits[i];
      var doc := store(h.docid);
      if doc.Found? {
        docs := docs + [Doc(h.docid, doc.url, doc.contents, h.score)];
      }
    }
    assert hits[..|hits|] == hits;
  }

  /**
   * Every entry comes from a hit whose document was found; entries keep the
   * hits' order, so hits in non-increasing score order give entries in
   * non-increasing hybrid-score order; and no hits, or no documents found,
   * give no entries.
   */
  lemma {:induction false} ResolvedDocsFacts(hits: seq<Result>, store: string -> Lookup)
    ensures |ResolvedDocs(hits, store)| <= |hits|
    ensures forall x :: x in ResolvedDocs(hits, store) ==> exists i :: 0 <= i < |hits| && FromHit(x, hits[i], store)
    ensures NonIncreasing(hits, ScoreOf) ==> NonIncreasing(ResolvedDocs(hits, store), HybridScoreOf)
    ensures (forall i :: 0 <= i < |hits| ==> !store(hits[i].docid).Found?) ==> ResolvedDocs(hits, store) == []
    decreases |hits|
  {
    if hits != [] {
      var n := |hits| - 1;
      var p := hits[..n];
      ResolvedDocsFacts(p, store);
      forall x | x in ResolvedDocs(p, store) ensures exists i :: 0 <= i < |hits| && FromHit(x, hits[i], store) {
        var i :| 0 <= i < |p| && FromHit(x, p[i], store);
        assert hits[i] == p[i];
      }
      if NonIncreasing(hits, ScoreOf) {
        assert NonIncreasing(p, ScoreOf) by {
          forall i, j | 0 <= i < j < |p| ensures ScoreOf(p[i]) >= ScoreOf(p[j]) {
            assert p[i] == hits[i] && p[j] == hits[j];
          }
        }
        var q := ResolvedDocs(p, store);
        forall x | x in q ensures x.hybridScore >= hits[n].score {
          var i :| 0 <= i < |p| && FromHit(x, p[i], store);
          assert hits[i] == p[i];
        }
      }
    }
  }

  // ----- the prompt (llm_rerank.py:22-38) -----

  /** `contents.replace("\n", " ")[:300]`: the excerpt of a document the judge sees. */
  function Excerpt(contents: string): string {
    Take(ReplaceAll(contents, "\n", " "), ExcerptLength)
  }

  /**
   * An excerpt is the first 300 characters of the document with every
   * newline turned into a space: at most 300 characters, none a newline.
   */
  lemma {:induction false} ExcerptFacts(contents: string)
    ensures |Excerpt(contents)| == if |contents| < ExcerptLength then |contents| else ExcerptLength
    ensures forall i :: 0 <= i < |Excerpt(contents)| ==>
      Excerpt(contents)[i] == if contents[i] == '\n' then ' ' else contents[i]
    ensures '\n' !in Excerpt(contents)
  {
    ReplaceCharAt(contents, '\n', ' ');
    var r := Excerpt(contents);
    assert forall i :: 0 <= i < |r| ==> r[i] != '\n';
  }

  /** The label line of the `i`-th candidate (1-based). */
  function LabelLine(i: nat, docid: string): string {
    "[DOC_" + NatToString(i) + "] docid=" + docid
  }

  /** The content line of a candidate. */
  function ContentLine(contents: string): string {
    "内容: " + Excerpt(contents) + "\n"
  }

  /** The two lines of each candidate, numbered from `from`. */
  function DocLines(docs: seq<Doc>, from: nat): (r: seq<string>)
    ensures |r| == 2 * |docs|
    decreases |docs|
  {
    if docs == [] then []
    else [LabelLine(from, docs[0].docid), ContentLine(docs[0].contents)] + DocLines(docs[1..], from + 1)
  }

  /** The lines of the prompt, before they are joined. */
  function PromptLines(query: string, docs: seq<Doc>): seq<string> {
    ["你是一个搜索引擎的相关性评估助手。", "请为以下文档打分（0-5分），0=无关，5=高度相关。", "用户查询：" + query + "\n", "候选文档列表："]
      + DocLines(docs, 1)
      + ["请只输出 JSON 数组，格式：", "[{\"docid\": \"...\", \"score\": 0-5}, ...]"]
  }

  /** `sep.join(lines)` */
  function Join(lines: seq<string>, sep: string): string {
    if lines == [] then ""
    else if |lines| == 1 then lines[0]
    else lines[0] + sep + Join(lines[1..], sep)
  }

  /** `_build_rerank_prompt(query, docs)` */
  function BuildRerankPrompt(query: string, docs: seq<Doc>): string {
    Join(PromptLines(query, docs), "\n")
  }

  lemma {:induction false} DocLinesAt(docs: seq<Doc>, from: nat, i: nat)
    requires i < |docs|
    ensures DocLines(docs, from)[2 * i] == LabelLine(from + i, docs[i].docid)
    ensures DocLines(docs, from)[2 * i + 1] == ContentLine(docs[i].contents)
    decreases i
  {
    var rest := DocLines(docs[1..], from + 1);
    assert DocLines(docs, from) == [LabelLine(from, docs[0].docid), ContentLine(docs[0].contents)] + rest;
    if i > 0 {
      DocLinesAt(docs[1..], from + 1, i - 1);
      assert docs[1..][i - 1] == docs[i];
      assert DocLines(docs, from)[2 * i] == rest[2 * (i - 1)];
      assert DocLines(docs, from)[2 * i + 1] == rest[2 * (i - 1) + 1];
    }
  }

  /**
   * The prompt has four header lines, two lines per candidate, labelled
   * [DOC_1], [DOC_2], ... in input order, each followed by that candidate's
   * excerpt, and two closing lines.
   */
  lemma {:induction false} PromptLayout(query: string, docs: seq<Doc>)
    ensures |PromptLines(query, docs)| == 6 + 2 * |docs|
    ensures forall i :: 0 <= i < |docs| ==>
      && PromptLines(query, docs)[4 + 2 * i] == LabelLine(i + 1, docs[i].docid)
      && PromptLines(query, docs)[5 + 2 * i] == ContentLine(docs[i].contents)
  {
    forall i | 0 <= i < |docs|
      ensures PromptLines(query, docs)[4 + 2 * i] == LabelLine(i + 1, docs[i].docid)
      ensures PromptLines(query, docs)[5 + 2 * i] == ContentLine(docs[i].contents)
    {
      DocLinesAt(docs, 1, i);
    }
  }

  // ----- reading the judge's reply (llm_rerank.py:40-54) -----

  /** A reply that starts with a code fence loses its first line and its last line. */
  function Unfenced(t: string): string {
    if StartsWith(t, "```") then BeforeLast(AfterFirst(t, '\n'), '\n') else t
  }

  /** The text `json.loads` is given: from the first "[" to the last "]" of `t`, or nothing when either is missing. */
  function BracketSlice(t: string): Option<string> {
    var start, end := FindChar(t, '['), RFindChar(t, ']');
    if start != -1 && end != -1 then Some(Slice(t, start, end + 1)) else None
  }

  /** `_parse_llm_json(text)`, with `decode` standing for `json.loads` (`None` when it raises). */
  function ParseLlmJson(text: string, decode: string -> Option<seq<JudgeItem>>): seq<JudgeItem> {
    match BracketSlice(Unfenced(Strip(text)))
    case None => []
    case Some(p) => decode(p).GetOr([])
  }

  /**
   * Without a "[" or without a "]" there is nothing to decode; otherwise the
   * decoded text is exactly the one from the first "[" to the last "]"
   * inclusive, and it is empty when the last "]" comes before the first "[".
   */
  lemma {:induction false} BracketSliceFacts(t: string)
    ensures BracketSlice(t).None? <==> '[' !in t || ']' !in t
    ensures var start, end := FindChar(t, '['), RFindChar(t, ']');
      '[' in t && ']' in t && start <= end ==>
        && BracketSlice(t) == Some(t[start..end + 1])
        && t[start] == '[' && '[' !in t[..start]
        && t[end] == ']' && ']' !in t[end + 1..]
    ensures '[' in t && ']' in t && RFindChar(t, ']') < FindChar(t, '[') ==> BracketSlice(t) == Some("")
  {
  }

  /**
   * A text whose first "[" opens `arr` and whose last "]" closes it hands
   * `json.loads` exactly `arr`.
   */
  lemma {:induction false} BracketSliceOf(pre: string, arr: string, post: string)
    requires '[' !in pre && ']' !in post
    requires |arr| >= 2 && arr[0] == '[' && arr[|arr| - 1] == ']'
    ensures BracketSlice(pre + arr + post) == Some(arr)
  {
    var t := pre + arr + post;
    assert t == pre + (arr + post) && t == (pre + arr) + post;
    FindCharAfter(pre, arr + post, '[');
    RFindCharBefore(pre + arr, post, ']');
    assert t[|pre|..|pre| + |arr|] == arr;
  }

  /**
   * An unfenced reply whose first "[" opens the array `arr` and whose last
   * "]" closes it parses to what `json.loads(arr)` gives, and to [] when
   * that raises; the text around the array is ignored.
   */
  lemma {:induction false} ParseLlmJsonReadsArray(text: string, decode: string -> Option<seq<JudgeItem>>,
                                                  pre: string, arr: string, post: string)
    requires Strip(text) == pre + arr + post && !StartsWith(Strip(text), "```")
    requires '[' !in pre && ']' !in post
    requires |arr| >= 2 && arr[0] == '[' && arr[|arr| - 1] == ']'
    ensures ParseLlmJson(text, decode) == decode(arr).GetOr([])
  {
    BracketSliceOf(pre, arr, post);
  }

  /**
   * A fenced reply "```lang\n<body>\n```" is read as its body alone: the
   * array that <body> holds is decoded, whatever the fence lines contain.
   */
  lemma {:induction false} ParseLlmJsonReadsFenced(text: string, decode: string -> Option<seq<JudgeItem>>,
                                                   first: string, pre: string, arr: string, post: string, last: string)
    requires Strip(text) == first + "\n" + (pre + arr + post) + "\n" + last
    requires StartsWith(first, "```") && '\n' !in first && '\n' !in last
    requires '[' !in pre && ']' !in post
    requires |arr| >= 2 && arr[0] == '[' && arr[|arr| - 1] == ']'
    ensures ParseLlmJson(text, decode) == decode(arr).GetOr([])
  {
    FenceRemoved(first, pre + arr + post, last);
    BracketSliceOf(pre, arr, post);
  }

  /**
   * A fenced reply "```lang\n<body>\n```" is cut down to <body>: the first
   * line and the last line go, whatever newlines <body> holds.
   */
  lemma {:induction false} FenceRemoved(first: string, body: string, last: string)
    requires StartsWith(first, "```") && '\n' !in first && '\n' !in last
    ensures Unfenced(first + "\n" + body + "\n" + last) == body
  {
    var t := first + "\n" + body + "\n" + last;
    var a := body + "\n" + last;
    assert StartsWith(t, "```") by {
      assert t[..3] == first[..3];
    }
    assert AfterFirst(t, '\n') == a by {
      assert t == first + ("\n" + a);
      AfterFirstAt(first, a);
    }
    assert BeforeLast(a, '\n') == body by {
      assert a == (body + "\n") + last;
      BeforeLastAt(body, last);
    }
  }

  // ----- the judge scores (llm_rerank.py:104, 109) -----

  /** Item `i` names `d` and carries a score. */
  predicate Scores(items: seq<JudgeItem>, i: int, d: string) {
    0 <= i < |items| && items[i].docid == Some(d) && items[i].score.Some?
  }

  /** `score_map`: each item with both keys maps its docid to its score; later items override earlier ones. */
  function ScoreMap(items: seq<JudgeItem>): map<string, real> {
    if items == [] then map[]
    else
      var n := |items| - 1;
      var m := ScoreMap(items[..n]);
      if items[n].docid.Some? && items[n].score.Some? then m[items[n].docid.value := items[n].score.value] else m
  }

  /** `score_map.get(docid, 0.0)` */
  function JudgeScore(m: map<string, real>, d: string): real {
    if d in m then m[d] else 0.0
  }

  /**
   * A docid has a judge score exactly when some item names it with a score,
   * and then the score is that of the last such item.
   */
  lemma {:induction false} ScoreMapFacts(items: seq<JudgeItem>, d: string)
    ensures d in ScoreMap(items) <==> exists i :: Scores(items, i, d)
    ensures forall i :: Scores(items, i, d) && (forall j :: i < j < |items| ==> !Scores(items, j, d)) ==>
      ScoreMap(items)[d] == items[i].score.value
    decreases |items|
  {
    if items != [] {
      var n := |items| - 1;
      var p := items[..n];
      ScoreMapFacts(p, d);
      forall i | 0 <= i < n ensures Scores(items, i, d) <==> Scores(p, i, d) {
        assert items[i] == p[i];
      }
      if Scores(items, n, d) {
      } else {
        assert (exists i :: Scores(items, i, d)) ==> exists i :: Scores(p, i, d);
      }
    }
  }

  // ----- blending and ordering (llm_rerank.py:106-122) -----

  /** The entries of `reranked`: judge score plus a tenth of the hybrid score, in candidate order. */
  function Blend(docs: seq<Doc>, m: map<string, real>): (r: seq<Reranked>)
    ensures |r| == |docs|
  {
    if docs == [] then []
    else
      var n := |docs| - 1;
      var d := docs[n];
      Blend(docs[..n], m) + [Reranked(d.docid, d.url, d.contents, JudgeScore(m, d.docid) + 0.1 * d.hybridScore)]
  }

  /** The blending loop (llm_rerank.py:106-118). */
  method BlendScores(docs: seq<Doc>, scoreMap: map<string, real>) returns (reranked: seq<Reranked>)
    ensures reranked == Blend(docs, scoreMap)
  {
    reranked := [];
    for i := 0 to |docs|
      invariant reranked == Blend(docs[..i], scoreMap)
    {
      assert docs[..i + 1][..i] == docs[..i];
      var d := docs[i];
      var llmScore := if d.docid in scoreMap then scoreMap[d.docid] else 0.0;
      var finalScore := llmScore + 0.1 * d.hybridScore;
      reranked := reranked + [Reranked(d.docid, d.url, d.contents, finalScore)];
    }
    assert docs[..|docs|] == docs;
  }

  /** Entry `i` of the blend is candidate `i`, rescored. */
  lemma {:induction false} BlendAt(docs: seq<Doc>, m: map<string, real>, i: nat)
    requires i < |docs|
    ensures Blend(docs, m)[i] == Reranked(docs[i].docid, docs[i].url, docs[i].contents,
      JudgeScore(m, docs[i].docid) + 0.1 * docs[i].hybridScore)
    decreases |docs|
  {
    var n := |docs| - 1;
    if i < n {
      BlendAt(docs[..n], m, i);
    }
  }

  /** What `llm_rerank` returns once it has candidates and judge items. */
  function RerankOutput(docs: seq<Doc>, scored: seq<JudgeItem>, topKFinal: int): seq<Reranked> {
    Take(SortDesc(Blend(docs, ScoreMap(scored)), FinalScoreOf), topKFinal)
  }

  /** `x` is candidate `d`, rescored with the judge scores `m`. */
  predicate Rescored(x: Reranked, d: Doc, m: map<string, real>) {
    x == Reranked(d.docid, d.url, d.contents, JudgeScore(m, d.docid) + 0.1 * d.hybridScore)
  }

  /**
   * The output is in non-increasing final-score order, holds at most
   * `top_k_final` entries (all but the last `-top_k_final` when it is
   * negative), and each entry is a candidate rescored.
   */
  lemma {:induction false} RerankOutputFacts(docs: seq<Doc>, scored: seq<JudgeItem>, topKFinal: int)
    ensures NonIncreasing(RerankOutput(docs, scored, topKFinal), FinalScoreOf)
    ensures |RerankOutput(docs, scored, topKFinal)| <= |docs|
    ensures topKFinal >= 0 ==> |RerankOutput(docs, scored, topKFinal)| <= topKFinal
    ensures topKFinal < 0 ==> |RerankOutput(docs, scored, topKFinal)| == if |docs| + topKFinal < 0 then 0 else |docs| + topKFinal
    ensures forall x :: x in RerankOutput(docs, scored, topKFinal) ==>
      exists i :: 0 <= i < |docs| && Rescored(x, docs[i], ScoreMap(scored))
  {
    var m := ScoreMap(scored);
    var b := Blend(docs, m);
    var s := SortDesc(b, FinalScoreOf);
    var r := RerankOutput(docs, scored, topKFinal);
    SortDescNonIncreasing(b, FinalScoreOf);
    SortDescPermutes(b, FinalScoreOf);
    PrefixSubseq(s, |r|);
    SubseqNonIncreasing(r, s, FinalScoreOf);
    forall x | x in r ensures exists i :: 0 <= i < |docs| && Rescored(x, docs[i], m) {
      assert x in multiset(s);
      assert x in b;
      var i :| 0 <= i < |b| && b[i] == x;
      BlendAt(docs, m, i);
    }
  }

  /**
   * When the judge gives nothing usable, every candidate scores a tenth of
   * its hybrid score, so candidates that arrive in hybrid order stay in
   * hybrid order.
   */
  lemma {:induction false} JudgeFailureKeepsHybridOrder(docs: seq<Doc>, topKFinal: int)
    requires NonIncreasing(docs, HybridScoreOf)
    ensures RerankOutput(docs, [], topKFinal) == Take(Blend(docs, map[]), topKFinal)
  {
    var b := Blend(docs, map[]);
    forall i, j | 0 <= i < j < |b| ensures FinalScoreOf(b[i]) >= FinalScoreOf(b[j]) {
      BlendAt(docs, map[], i);
      BlendAt(docs, map[], j);
      assert docs[i].hybridScore >= docs[j].hybridScore;
    }
    SortDescOfSorted(b, FinalScoreOf);
  }

  // ----- the whole stage -----

  /**
   * What `llm_rerank(query, top_k_candidate, top_k_final, alpha)` returns,
   * or `None` when `hybrid_search` raises. `judge` stands for the chat call
   * (`None` when it raises) and `decode` for `json.loads`.
   */
  function RerankSpec(query: string, topKCandidate: int, topKFinal: int, rs: Retrievers,
                      store: string -> Lookup, judge: string -> Option<string>,
                      decode: string -> Option<seq<JudgeItem>>): Option<seq<Reranked>>
  {
    match HybridSpec(query, topKCandidate, RerankRrfK, rs)
    case None => None
    case Some(hits) =>
      var docs := ResolvedDocs(hits, store);
      if docs == [] then Some([])
      else
        var reply := judge(BuildRerankPrompt(query, docs));
        var scored := if reply.None? then [] else ParseLlmJson(reply.value, decode);
        Some(RerankOutput(docs, scored, topKFinal))
  }

  /** The rerank fails exactly when its hybrid search does. */
  lemma {:induction false} RerankFailsWithHybrid(query: string, topKCandidate: int, topKFinal: int, rs: Retrievers,
                              store: string -> Lookup, judge: string -> Option<string>,
                              decode: string -> Option<seq<JudgeItem>>)
    ensures RerankSpec(query, topKCandidate, topKFinal, rs, store, judge, decode).Some?
        <==> HybridSpec(query, topKCandidate, RerankRrfK, rs).Some?
  {
  }

  /** A successful rerank is in non-increasing final-score order, at most `top_k_final` long when that is not negative. */
  lemma {:induction false} RerankSpecFacts(query: string, topKCandidate: int, topKFinal: int, rs: Retrievers,
                        store: string -> Lookup, judge: string -> Option<string>,
                        decode: string -> Option<seq<JudgeItem>>)
    requires RerankSpec(query, topKCandidate, topKFinal, rs, store, judge, decode).Some?
    ensures NonIncreasing(RerankSpec(query, topKCandidate, topKFinal, rs, store, judge, decode).value, FinalScoreOf)
    ensures topKFinal >= 0 ==> |RerankSpec(query, topKCandidate, topKFinal, rs, store, judge, decode).value| <= topKFinal
  {
    var hits := HybridSpec(query, topKCandidate, RerankRrfK, rs).value;
    var docs := ResolvedDocs(hits, store);
    if docs != [] {
      var reply := judge(BuildRerankPrompt(query, docs));
      var scored := if reply.None? then [] else ParseLlmJson(reply.value, decode);
      RerankOutputFacts(docs, scored, topKFinal);
    }
  }

  /**
   * `llm_rerank` (llm_rerank.py:56-122). The `alpha` argument is accepted
   * and never read.
   */
  method LlmRerank(query: string, topKCandidate: int, topKFinal: int, alpha: real, rs: Retrievers,
                   store: string -> Lookup, judge: string -> Option<string>,
                   decode: string -> Option<seq<JudgeItem>>) returns (r: Option<seq<Reranked>>)
    ensures r == RerankSpec(query, topKCandidate, topKFinal, rs, store, judge, decode)
  {
    var hybridHits := HybridSearch(query, topKCandidate, RerankRrfK, rs);
    if hybridHits.None? {
      return None;
    }
    var docs := ResolveDocs(hybridHits.value, store);
    if docs == [] {
      return Some([]);
    }
    var prompt := BuildRerankPrompt(query, docs);
    var reply := judge(prompt);
    var scoredList := if reply.None? then [] else ParseLlmJson(reply.value, decode);
    var scoreMap := ScoreMap(scoredList);
    var reranked := BlendScores(docs, scoreMap);
    reranked := SortDesc(reranked, FinalScoreOf);
    r := Some(Take(reranked, topKFinal));
  }

  /** The output entries for hits `hits` are hits whose stored document was found. */
  lemma {:induction false} OutputFromFoundHits(hits: seq<Result>, store: string -> Lookup, scored: seq<JudgeItem>, topKFinal: int)
    ensures forall x :: x in RerankOutput(ResolvedDocs(hits, store), scored, topKFinal) ==>
      exists h :: h in hits && h.docid == x.docid && store(h.docid) == Found(x.url, x.contents)
  {
    var docs := ResolvedDocs(hits, store);
    ResolvedDocsFacts(hits, store);
    RerankOutputFacts(docs, scored, topKFinal);
    forall x | x in RerankOutput(docs, scored, topKFinal)
      ensures exists h :: h in hits && h.docid == x.docid && store(h.docid) == Found(x.url, x.contents)
    {
      var i :| 0 <= i < |docs| && Rescored(x, docs[i], ScoreMap(scored));
      assert docs[i] in docs;
      var j :| 0 <= j < |hits| && FromHit(docs[i], hits[j], store);
      assert hits[j] in hits;
    }
  }

  /**
   * Every docid `llm_rerank` returns is a hybrid hit whose stored document
   * was found, with that document's URL and contents.
   */
  lemma {:induction false} RerankFromFoundHits(query: string, topKCandidate: int, topKFinal: int, rs: Retrievers,
                            store: string -> Lookup, judge: string -> Option<string>,
                            decode: string -> Option<seq<JudgeItem>>)
    ensures var out := RerankSpec(query, topKCandidate, topKFinal, rs, store, judge, decode);
      out.Some? ==> forall x :: x in out.value ==>
        exists h :: h in HybridSpec(query, topKCandidate, RerankRrfK, rs).value
          && h.docid == x.docid && store(h.docid) == Found(x.url, x.contents)
  {
    var hits := HybridSpec(query, topKCandidate, RerankRrfK, rs);
    if hits.Some? {
      var docs := ResolvedDocs(hits.value, store);
      if docs != [] {
        var reply := judge(BuildRerankPrompt(query, docs));
        var sc := if reply.None? then [] else ParseLlmJson(reply.value, decode);
        assert RerankSpec(query, topKCandidate, topKFinal, rs, store, judge, decode) == Some(RerankOutput(docs, sc, topKFinal));
        OutputFromFoundHits(hits.value, store, sc, topKFinal);
      }
    }
  }

  /**
   * When the judge call raises, or its reply yields no items (no array,
   * a failed decode, an empty list), the output is the found hits in hybrid
   * order, each scored a tenth of its hybrid score, cut at `top_k_final`;
   * when no hit is found the output is empty.
   */
  lemma {:induction false} RerankFallback(query: string, topKCandidate: int, topKFinal: int, rs: Retrievers,
                       store: string -> Lookup, judge: string -> Option<string>,
                       decode: string -> Option<seq<JudgeItem>>)
    requires HybridSpec(query, topKCandidate, RerankRrfK, rs).Some?
    ensures var docs := ResolvedDocs(HybridSpec(query, topKCandidate, RerankRrfK, rs).value, store);
      var out := RerankSpec(query, topKCandidate, topKFinal, rs, store, judge, decode);
      && (docs == [] ==> out == Some([]))
      && (var reply := judge(BuildRerankPrompt(query, docs));
          docs != [] && (reply.None? || ParseLlmJson(reply.value, decode) == []) ==>
            out == Some(Take(Blend(docs, map[]), topKFinal)))
  {
    var hits := HybridSpec(query, topKCandidate, RerankRrfK, rs).value;
    var docs := ResolvedDocs(hits, store);
    var reply := judge(BuildRerankPrompt(query, docs));
    if docs != [] && (reply.None? || ParseLlmJson(reply.value, decode) == []) {
      var lex := rs.bm25(query, CandidateK(topKCandidate));
      var dense := rs.dense(query, CandidateK(topKCandidate));
      HybridResultsFacts(lex.value, dense.value, topKCandidate, RerankRrfK);
      ResolvedDocsFacts(hits, store);
      JudgeFailureKeepsHybridOrder(docs, topKFinal);
    }
  }
}
