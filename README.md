# Hybrid search and LLM rerank: a verified model

This project models the ranking core of a small retrieval-augmented search
service over a crawled web corpus:

- **Crawler side** (`data.py`). Each URL gets a normalised key. A resume
  scan folds the corpus file into the set of finished keys and the largest
  numeric `docN` id. The task queue hands out consecutive `doc{n}` ids and
  skips URLs that are finished or already queued.
- **Index side** (`build_dense_index.py`). Each document is cut into
  overlapping windows, and each window gets the id `{docid}_chunk{idx}`.
- **Query side** (`hybrid_search.py`). Reciprocal Rank Fusion (RRF) adds
  `1/(k + rank + 1)` for every lexical (BM25) rank of a document. It adds
  the same term for the first dense rank only, after collapsing chunk ids
  back to document ids. It then sorts stably by score, descending, and
  keeps the first record for each normalised URL, up to `max(top_k, 1)`
  records (the loop checks `top_k` only after an append).
- **Rerank** (`llm_rerank.py`). The stored documents of the hybrid hits are
  described to a judge model. Its JSON reply is parsed defensively. Each
  candidate is rescored as `judge + 0.1 * hybrid`, then sorted and cut.
- **Endpoint** (`main.py`). It rejects blank queries and builds titles and
  previews.

The Dafny modules follow the source files:

| file | module | source |
|---|---|---|
| wrappers.dfy | Wrappers | `Option` |
| pystr.dfy | PyStr | the Python `str` operations the code uses: `strip`, `rstrip(c)`, `replace`, `find`/`rfind`, `split(sep)[0]`, slicing, decimal digits |
| url_key.dfy | UrlKey | the query-time key of `hybrid_search.py:97-101` and `normalize_url` of `data.py:19-26` |
| ranking.dfy | Ranking | Python's stable `sorted(..., reverse=True)` and `list.sort` |
| chunking.dfy | Chunking | `chunk_text` and the chunk-id loop |
| fusion.dfy | Fusion | `hybrid_search` |
| rerank.dfy | Rerank | `_build_rerank_prompt`, `_parse_llm_json` and `llm_rerank` |
| crawl.dfy | Crawl | the record fold of `get_finished_urls` and the task loop of `main` |
| api.dfy | Api | `extract_title`, the preview and `search_api` |

How the source's forms become Dafny:

- Loops that update variables become methods with `while`/`for` loops. Each
  is proved equal to a recursive specification function. Examples:
  `Fusion.FuseLexical`, `Fusion.Dedup`, `Chunking.Slide`,
  `Crawl.GenerateTasks`, `Rerank.BlendScores`.
- The properties the code promises are proved as lemmas about those
  functions.
- Scores are exact `real`s.
- Everything outside the program is a function parameter:
  - the two retrievers;
  - the document store behind `searcher.doc`;
  - the judge model;
  - `json.loads` on the judge's reply.

## Model

| member | source | states |
|---|---|---|
| UrlKey.StripIndexPage | data.py:25 | removing the `/index.<ext>` suffix never lengthens the URL. The URL is unchanged exactly when no listed extension ends it, counting the `$` match before one final newline |
| UrlKey.KeyOfEmpty | data.py:21 | the empty URL has the empty key |
| UrlKey.SchemeInsensitive | data.py:23 | `https://u` and `http://u` get the same key, under both normalisers |
| UrlKey.WhitespaceInsensitive | data.py:22 | surrounding white space does not change `normalize_url` |
| UrlKey.NormalizeTrimmed | data.py:22-26 | on a trimmed URL, `normalize_url` is the query-time key pipeline with the crawler's extension list |
| UrlKey.TrailingSlashesIgnored | data.py:24 | any number of trailing slashes is ignored by both normalisers |
| UrlKey.KeyFixedPoint | hybrid_search.py:97-101 | a URL that is its own key has no scheme to delete, no trailing slash and no index page |
| UrlKey.NormalizeFixedPoint | data.py:22-26 | a non-empty URL that is its own `normalize_url` is trimmed and is its own key |
| UrlKey.IndexPageIgnored | data.py:25 | appending `/index.<ext>`, in any letter case, to a normalised URL does not change its key, for each normaliser's own extension list |
| UrlKey.AspxOnlyCrawlerSide | data.py:25 | `/index.aspx` is removed by the crawler's normaliser but not by the query-time key |
| UrlKey.AspxKeptAtQueryTime | hybrid_search.py:101 | the query-time key keeps a trailing `/index.aspx` |
| UrlKey.AspxIsNoHybridIndexPage | hybrid_search.py:101 | no query-time extension matches a URL ending in `/index.aspx` |
| Ranking.SortDescNonIncreasing | hybrid_search.py:83 | the sorted list is non-increasing in the key |
| Ranking.SortDescPermutes | hybrid_search.py:83 | the sorted list is a permutation of the input |
| Ranking.SortDescStable | hybrid_search.py:83 | records with equal keys keep their input order |
| Ranking.SortDescOfSorted | llm_rerank.py:121 | sorting a list that is already non-increasing leaves it unchanged |
| Ranking.SubseqNonIncreasing | hybrid_search.py:91-126 | a subsequence of a non-increasing list is non-increasing, and its elements come from the list |
| Chunking.ChunkText | build_dense_index.py:20-31 | the windowing loop returns exactly the windows of the specification, whenever it returns |
| Chunking.Slide | build_dense_index.py:23-31 | the `while` loop over the stripped text appends exactly the windows starting at 0, `stride`, `2*stride`, … that lie inside the text |
| Chunking.NeverAdvances | build_dense_index.py:26-29 | with `size <= overlap` and non-blank text, the loop guard holds after every number of iterations, so the loop never ends |
| Chunking.ChunkIndexed | build_dense_index.py:22-29 | chunk `i` is the stripped text from `i*(size-overlap)` to `min(i*(size-overlap)+size, len)` |
| Chunking.ChunkCount | build_dense_index.py:26-29 | the number of chunks is `ceil(len/(size-overlap))`, and 0 for blank text |
| Chunking.ChunksBounded | build_dense_index.py:26-28 | every chunk is non-empty and at most `size` long |
| Chunking.ChunksCover | build_dense_index.py:26-29 | every character of the stripped text lies in some chunk at its own offset |
| Chunking.BlankTextNoChunks | build_dense_index.py:22-26 | white-space-only text returns, and returns no chunks, whatever the size and overlap |
| Chunking.DocOf | hybrid_search.py:57 | the document part of an id is a prefix of it |
| Chunking.DocOfPlainId | hybrid_search.py:57 | an id without `_chunk` is its own document id |
| Chunking.DocOfIdempotent | hybrid_search.py:57 | collapsing twice is collapsing once |
| Chunking.ChunkIdRoundTrip | build_dense_index.py:67 | splitting `{docid}_chunk{idx}` at `_chunk` gives back `docid` when `docid` holds no `_chunk` |
| Chunking.AppendChunks | build_dense_index.py:65-67 | one record appends its chunks and the ids `docid_chunk0` … `docid_chunk{n-1}` |
| Chunking.BuildChunkIds | build_dense_index.py:55-67 | the record loop lines up all chunk texts and ids, skipping records with an empty id or empty contents |
| Chunking.AllIdsNameTheirChunk | build_dense_index.py:58-67 | texts and ids have the same length. Each id is `docid_chunk{idx}` of a record with non-empty id and contents, sits beside that record's chunk `idx`, and collapses back to the docid |
| Fusion.Rrf | hybrid_search.py:44 | every RRF term is positive |
| Fusion.LexFoldDescribes | hybrid_search.py:31-45 | after the lexical loop, each document's entry is the sum of its RRF terms at every lexical rank, with the url and contents of its first lexical hit |
| Fusion.DenseFoldDescribes | hybrid_search.py:52-77 | after the dense loop, each document gains the RRF term of its first dense rank only, and the set of seen documents is exactly the collapsed dense ids |
| Fusion.FuseLexical | hybrid_search.py:31-45 | the lexical loop computes the lexical fold |
| Fusion.FuseDense | hybrid_search.py:52-77 | the dense loop computes the dense fold |
| Fusion.DenseRank | hybrid_search.py:56-77 | one chunk hit is one step of the dense fold. A document already seen is skipped. Otherwise it is marked seen, gets an entry (the hit's contents, or the dense default, and its URL) if it has none, and gains `1/(k+rank+1)` and the dense source |
| Fusion.Fuse | hybrid_search.py:26-77 | the map holds exactly the documents in insertion order, and each entry is the expected sum, source set and first-seen url and contents |
| Fusion.FusedEntryFacts | hybrid_search.py:35-77 | a document is fused iff some retriever returned it. Its score is positive, and `bm25`/`dense` is in its `from` set iff that retriever returned it |
| Fusion.LexScorePositive | hybrid_search.py:44 | a document at some lexical rank has a positive lexical score |
| Fusion.LaterChunkIgnored | hybrid_search.py:59-60 | a later chunk of a document already seen on the dense side changes no entry, neither its score nor its `from` set, and no order |
| Fusion.LaterChunkKeepsOrder | hybrid_search.py:59-62 | such a chunk leaves the insertion order unchanged |
| Fusion.FirstSightingWins | hybrid_search.py:35-41 | a document's url and contents come from its first lexical hit |
| Fusion.FirstDenseSightingWins | hybrid_search.py:65-73 | a dense-only document takes its url and contents from its first dense hit ("Dense结果暂无预览" when absent), and its score is that one term |
| Fusion.Limit | hybrid_search.py:128-129 | the loop keeps at least one record, and `top_k` records when `top_k >= 1` |
| Fusion.Dedup | hybrid_search.py:88-131 | the dedup loop keeps the first record for each key, stopping after `Limit(top_k)` records |
| Fusion.KeepFirstKeys | hybrid_search.py:110-116 | kept records have pairwise distinct keys, none of them seen before |
| Fusion.KeepFirstComplete | hybrid_search.py:110-116 | every key of the input that was not seen before is represented in the output |
| Fusion.KeepFirstEarliest | hybrid_search.py:110-126 | the kept record for a key is its earliest occurrence. A dropped duplicate is discarded, not merged |
| Fusion.HybridResultsFacts | hybrid_search.py:83-131 | the results number at most `Limit(top_k)`, are a subsequence of the score-sorted fused records (so non-increasing in score), and have pairwise distinct URL keys; when fewer than `Limit(top_k)` come back, every URL key of the fused records is represented |
| Fusion.UrlLessCollapse | hybrid_search.py:97-116 | at most one result has the empty URL |
| Fusion.TiesKeepInsertionOrder | hybrid_search.py:83 | records with equal scores stay in the map's insertion order after sorting |
| Fusion.DedupExample | hybrid_search.py:97-116 | `h/` followed by `h/index.html` keep only the first, and a third URL with another key is kept |
| Fusion.RrfExample | hybrid_search.py:44-83 | with k = 60, lexical `[A, B]` and dense `[B_chunk0, C_chunk1]` sort to B (1/61+1/62), A (1/61), C (1/62) |
| Fusion.HybridSpecFacts | hybrid_search.py:11-131 | a successful search returns at most `Limit(top_k)` results, non-increasing in score |
| Fusion.HybridSearch | hybrid_search.py:11-131 | the method computes the specification: both retrievers with `top_k * 5`, fusion, sort, dedup |
| Rerank.ResolveDocs | llm_rerank.py:66-81 | the lookup loop keeps exactly the hits whose stored document was found, in order |
| Rerank.ResolvedDocsFacts | llm_rerank.py:66-81 | there are no more docs than hits, each doc comes from a hit with a found document, and hybrid order is kept. No doc is left when no lookup succeeds |
| Rerank.ExcerptFacts | llm_rerank.py:32 | an excerpt is the first 300 characters with each newline turned into a space, so it holds no newline |
| Rerank.PromptLayout | llm_rerank.py:22-38 | the `lines` list the prompt is joined from has `6 + 2n` entries, and document `i` is labelled `[DOC_{i+1}] docid=…` followed by its excerpt line, in input order |
| Rerank.FenceRemoved | llm_rerank.py:45-46 | for a fenced reply, the first and last lines are dropped |
| Rerank.BracketSliceFacts | llm_rerank.py:48-52 | there is nothing to decode iff `[` or `]` is missing. Otherwise the text runs from the first `[` to the last `]` inclusive, and is empty when the last `]` comes first |
| Rerank.ParseLlmJsonReadsArray | llm_rerank.py:40-54 | an unfenced reply whose first `[` opens an array and whose last `]` closes it parses to `json.loads` of exactly that array, or `[]` when the decode raises; the text around it is ignored |
| Rerank.ParseLlmJsonReadsFenced | llm_rerank.py:40-54 | a reply in a code fence is read as its body alone: the array in the body is decoded, or `[]` when that raises |
| Rerank.ScoreMapFacts | llm_rerank.py:104 | a docid is in the map iff some item has both keys, and its score is that of the last such item |
| Rerank.BlendScores | llm_rerank.py:106-118 | the blend loop computes the blend specification |
| Rerank.BlendAt | llm_rerank.py:107-118 | entry `i` keeps doc `i`'s fields, with `final = judge score (0 when absent) + 0.1 * hybrid` |
| Rerank.RerankOutputFacts | llm_rerank.py:103-122 | the output is non-increasing in final score and is no longer than the docs or than a non-negative `top_k_final`. A negative cut has Python slice length. Every entry is a doc rescored |
| Rerank.JudgeFailureKeepsHybridOrder | llm_rerank.py:99-122 | with no judge scores, the output is the docs in hybrid order, blended and cut |
| Rerank.RerankSpecFacts | llm_rerank.py:56-122 | a successful rerank is non-increasing in final score and, when `top_k_final >= 0`, at most `top_k_final` long |
| Rerank.LlmRerank | llm_rerank.py:56-122 | the method computes the rerank specification |
| Rerank.RerankFromFoundHits | llm_rerank.py:66-81 | every output docid is a hybrid hit whose stored document was found, with that document's url and contents |
| Rerank.RerankFallback | llm_rerank.py:83-104 | no resolved docs give `[]`. A failed judge call, or a reply that parses to `[]` (no array, a failed decode, an empty list), gives the docs in hybrid order, blended and cut |
| Crawl.GetFinishedUrls | data.py:75-92 | the scan loop computes the record fold |
| Crawl.ScanFinished | data.py:81-82 | a key is finished iff it is non-empty and is the normalised URL of a line that was read |
| Crawl.ScanMaxBounds | data.py:86-90 | the max id bounds the number of every readable `docN` id |
| Crawl.ScanMaxAttained | data.py:86-90 | the max id is 0 or the number of some read id |
| Crawl.DocIdRoundTrip | data.py:86-88 | the id `doc{n}` reads back as `n` |
| Crawl.GenerateTasks | data.py:114-137 | the task loop aborts exactly when the fold does, and otherwise returns its tasks |
| Crawl.TasksIds | data.py:119-137 | task `i` has the id `doc{last+1+i}` |
| Crawl.TasksUrls | data.py:121-123 | every task carries the non-empty raw URL of some input item |
| Crawl.TasksKeys | data.py:125-131 | the seen set is exactly the tasks' keys, no task key is finished, and no two tasks share a key |
| Crawl.TasksComplete | data.py:125-131 | every item URL whose key is not finished has its key queued |
| Crawl.TasksFirstSightings | data.py:121-137 | each task carries the raw URL of the earliest item with its key, as written there (later spellings of the key are dropped), and tasks follow the input order of those earliest items |
| Crawl.TasksAbortWhen | data.py:121-125 | the loop raises iff some item is not an object or has a URL `normalize_url` cannot handle |
| Crawl.ScanWritten | data.py:62-97 | scanning again after appending records with consecutive ids advances the max id by their number and adds their non-empty keys |
| Crawl.ResumeContinues | data.py:105-137 | after a run writes its tasks, the next run's resume scan continues the id sequence and treats those URLs as finished |
| Api.EmptyContentIsUntitled | main.py:45 | a document without contents gets the fixed title "无标题文档" |
| Api.TitleLengthBound | main.py:47 | no title is longer than 43 characters |
| Api.TitleSingleLine | main.py:46 | a title holds no newline |
| Api.TitleIgnoresLaterLines | main.py:46 | only the first line matters |
| Api.ShortLineIsTitle | main.py:47 | a trimmed line of at most 40 characters is its own title |
| Api.LongLineIsCut | main.py:47 | a longer line becomes its first 40 characters and "..." |
| Api.BlankFirstLineGivesEmptyTitle | main.py:46 | a blank first line gives the empty title, not the fixed one |
| Api.PreviewFacts | main.py:68 | a preview is the first 150 characters with newlines turned into spaces, then "...", so it holds no newline |
| Api.RerankedItem | main.py:63-69 | an LLM-path item shows the docid and final score |
| Api.HitItem | main.py:74-91 | a hybrid-path item shows the docid and the hybrid score |
| Api.BuildItems | main.py:61-69 | the item loop maps each result to its item, in order |
| Api.SearchApi | main.py:51-97 | the endpoint, as written, computes its specification |
| Api.BlankQueryRejected | main.py:53-54 | the answer is 400 iff the query is blank |
| Api.HybridOnlyAlwaysFails | main.py:72 | as written, every non-blank hybrid-only request fails |
| Api.LlmPathAnswers | main.py:58-69 | the LLM path answers iff its hybrid search succeeds. Its data are the reranked results, non-increasing in score and, when `top_k >= 0`, at most `top_k` long |
| Api.SearchApiIntended | main.py:70-93 | the corrected endpoint computes its specification |
| Api.IntendedHybridOnlyAnswers | main.py:72-91 | with the corrected call, the hybrid-only path answers iff the search succeeds. It shows the hits' docids and scores in order, non-increasing, at most `Limit(top_k)` of them |

## Left out

- The retrievers (bm_search.py, dense_search.py) are abstract functions from a query and a count to a hit list, or to a failure. Lucene, BM25 scoring, embeddings and FAISS are not part of this model.
- The judge model call and `json.loads` are abstract functions. A decoded reply is a list of items, each with an optional docid and an optional numeric score.
- Rerank.BracketSliceFacts: when the last `]` comes before the first `[`, the model hands `decode` the empty text and leaves its answer open. `json.loads("")` always raises, so the source answers `[]` there.
- Rerank.ScoreMapFacts: a score that `float()` cannot convert raises outside the `try` in the source. That case is not modelled, because decoded scores are reals.
- HTTP fetching, HTML cleaning and the threaded crawl (`fetch_and_process`) are not part of this model. File reading and the append-mode writes are also left out.
  - A missing output file is modelled as an empty list of lines.
  - A read error that ends the scan early is not modelled.
  - The reading of a corpus line is an input: blank, unparsable, not an object, or a record whose `url` and `id` are absent, null, a string or another value.
- Crawl.ScanWritten: stated for records written in task order. The thread pool writes them in completion order, which this model does not capture.
- Crawl.ScanMaxBounds: only ASCII digits count as digits. `str.isdigit` also accepts other Unicode digits.
- Chunking.ChunkText: requires `size > overlap` or blank text. Otherwise the source loops forever, as Chunking.NeverAdvances states.
- The embedding and index writes in `build_dense_index` are not part of this model.
- Fusion.HybridSearch: requires the RRF constant `k >= 0`. Every caller passes 60.
- Fusion.Fuse: the `from` list's element order comes from iterating a Python set. The model keeps it as a set.
- The commented-out content fingerprint in the dedup loop has no effect and is not modelled.
- Floating-point rounding is not modelled: scores are exact reals. Ties that float sums would break differently are out of scope.
- `reranked.sort` sorts in place. The model reassigns the sorted list.
- Api.SearchApi: any exception in a path answers `Failed`, the body `{"code": 500}`. This covers a failing retriever and the hybrid-only `TypeError`. The error text, the printed trace and the HTTP status are not modelled.
- The `alpha` argument of `llm_rerank` is never used by the source, and the model ignores it too.
- UrlKey.TrailingSlashesIgnored: stated for URLs that do not end in `:`. Otherwise `http:` plus a slash would form a scheme that gets deleted.
- UrlKey.IndexPageIgnored: stated for a URL that is already its own key. Otherwise stripping the index page can expose more to strip.
- Non-string `url`, `contents` or `id` values in the input list and the stored documents are not modelled. The only exception is the record fold, which classifies them.
- The FastAPI wiring, CORS and the `/ask` endpoint (rag_qa.py) are not part of this model.

## Findings

| source | as written | input that shows it | evidently intended | confidence | as-written member | corrected member |
|---|---|---|---|---|---|---|
| main.py:72 | the hybrid-only path calls `hybrid_search(req.query, top_k=req.top_k, alpha=0.7)`, but `hybrid_search` (hybrid_search.py:11) takes no `alpha`. The `TypeError` is caught and the request answers code 500 | any non-blank query with `use_llm = false` | call `hybrid_search(req.query, top_k=req.top_k)` and return the hits with their stored url, title and preview | not executed | Api.HybridOnlyAlwaysFails | Api.IntendedHybridOnlyAnswers |
