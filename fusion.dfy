/**
 * Hybrid retrieval (hybrid_search.py): Reciprocal Rank Fusion of a lexical
 * (BM25) hit list and a dense (embedding) hit list, the collapse of dense
 * chunk hits to their documents, a stable sort by fused score and a
 * first-seen-wins deduplication by URL key, cut at `top_k`.
 */
module Fusion {
  import opened Wrappers
  import opened PyStr
  import opened UrlKey
  import opened Ranking
  import opened Chunking

  /** A retriever hit: its id, and its "contents" and "url" fields when the hit carries them. */
  datatype Hit = Hit(docid: string, contents: Option<string>, url: Option<string>)

  /** The retrievers that saw a document: "bm25" and "dense". */
  datatype Source = Bm25 | Dense

  /** One value of `fusion_dict`. */
  datatype Entry = Entry(score: real, content: string, url: string, from: set<Source>)

  /** One fused record, as the sort sees it and as `hybrid_search` returns it. */
  datatype Result = Result(docid: string, score: real, url: string, contents: string, from: set<Source>)

  /** The content shown for a document only the dense retriever found, when its hit has none. */
  const DenseNoPreview: string := "Dense结果暂无预览"

  /** The RRF constant `k` that `hybrid_search` uses when its caller passes none. */
  const DefaultRrfK: nat := 60

  /** The contribution of rank `rank` (0-based) to a fused score: 1 / (k + rank + 1). */
  function Rrf(k: int, rank: nat): (r: real)
    requires k >= 0
    ensures r > 0.0
  {
    1.0 / (k + rank + 1) as real
  }

  // ----- what fusion_dict holds -----

  /** The lexical hits' document ids, rank by rank. */
  function LexIds(hits: seq<Hit>): (r: seq<string>)
    ensures |r| == |hits|
  {
    if hits == [] then [] else LexIds(hits[..|hits| - 1]) + [hits[|hits| - 1].docid]
  }

  /** The documents of the dense hits, rank by rank: each chunk id cut at "_chunk". */
  function DenseDocs(hits: seq<Hit>): (r: seq<string>)
    ensures |r| == |hits|
  {
    if hits == [] then [] else DenseDocs(hits[..|hits| - 1]) + [DocOf(hits[|hits| - 1].docid)]
  }

  /** The first index at which `d` occurs in `s`. */
  function FirstIndex(s: seq<string>, d: string): (r: Option<nat>)
    ensures r.None? <==> d !in s
    ensures r.Some? ==> r.value < |s| && s[r.value] == d && d !in s[..r.value]
  {
    if s == [] then None
    else
      var p := s[..|s| - 1];
      var f := FirstIndex(p, d);
      if f.Some? then
        assert s[..f.value] == p[..f.value];
        f
      else if s[|s| - 1] == d then Some(|s| - 1)
      else
        assert s == p + [s[|s| - 1]];
        None
  }

  /** The lexical part of a fused score: 1/(k + r + 1) summed over every lexical rank r of `d`. */
  function LexScore(hits: seq<Hit>, d: string, k: int): (r: real)
    requires k >= 0
    ensures r >= 0.0
  {
    if hits == [] then 0.0
    else
      var n := |hits| - 1;
      LexScore(hits[..n], d, k) + (if hits[n].docid == d then Rrf(k, n) else 0.0)
  }

  /**
   * The entry `fusion_dict` ends up holding for `d`: the lexical RRF terms
   * plus the term of `d`'s first dense rank only; content and URL from the
   * first hit of the first retriever that saw `d`, with that retriever's
   * defaults; and the set of retrievers that saw `d`.
   */
  function Expected(lex: seq<Hit>, dense: seq<Hit>, k: int, d: string): Entry
    requires k >= 0
  {
    var li := FirstIndex(LexIds(lex), d);
    var di := FirstIndex(DenseDocs(dense), d);
    var score := LexScore(lex, d, k) + (if di.Some? then Rrf(k, di.value) else 0.0);
    var from := (if li.Some? then {Bm25} else {}) + (if di.Some? then {Dense} else {});
    if li.Some? then
      Entry(score, lex[li.value].contents.GetOr(""), lex[li.value].url.GetOr(""), from)
    else if di.Some? then
      Entry(score, dense[di.value].contents.GetOr(DenseNoPreview), dense[di.value].url.GetOr(""), from)
    else
      Entry(score, "", "", from)
  }

  /** `s` with every element after its first occurrence left out. */
  function Distinct(s: seq<string>): (r: seq<string>)
    ensures forall x :: x in r <==> x in s
  {
    if s == [] then []
    else
      var p := Distinct(s[..|s| - 1]);
      assert forall x :: x in s <==> x in s[..|s| - 1] || x == s[|s| - 1];
      if s[|s| - 1] in p then p else p + [s[|s| - 1]]
  }

  /** The keys of `fusion_dict` in insertion order. */
  function FusedOrder(lex: seq<Hit>, dense: seq<Hit>): seq<string> {
    Distinct(LexIds(lex) + DenseDocs(dense))
  }

  function ToResult(d: string, e: Entry): Result {
    Result(d, e.score, e.url, e.content, e.from)
  }

  // ----- the two accumulation loops -----

  lemma {:induction false} LexStep(lex: seq<Hit>, i: nat, k: int, x: string)
    requires k >= 0 && i < |lex|
    ensures var e, e' := Expected(lex[..i], [], k, x), Expected(lex[..i + 1], [], k, x);
      var d := lex[i].docid;
      if x != d then e' == e
      else if d in LexIds(lex[..i]) then e' == e.(score := e.score + Rrf(k, i), from := e.from + {Bm25})
      else e' == Entry(0.0 + Rrf(k, i), lex[i].contents.GetOr(""), lex[i].url.GetOr(""), {} + {Bm25})
  {
    var p, q := lex[..i], lex[..i + 1];
    assert q[..i] == p;
    assert LexIds(q) == LexIds(p) + [lex[i].docid];
    if x == lex[i].docid && x !in LexIds(p) {
      LexScoreAbsent(p, x, k);
    }
  }

  lemma {:induction false} LexScoreAbsent(hits: seq<Hit>, d: string, k: int)
    requires k >= 0 && d !in LexIds(hits)
    ensures LexScore(hits, d, k) == 0.0
    decreases |hits|
  {
    if hits != [] {
      var n := |hits| - 1;
      assert LexIds(hits) == LexIds(hits[..n]) + [hits[n].docid];
      LexScoreAbsent(hits[..n], d, k);
    }
  }

  lemma {:induction false} DenseStep(lex: seq<Hit>, dense: seq<Hit>, j: nat, k: int, x: string)
    requires k >= 0 && j < |dense|
    ensures var e, e' := Expected(lex, dense[..j], k, x), Expected(lex, dense[..j + 1], k, x);
      var d := DocOf(dense[j].docid);
      if x != d || d in DenseDocs(dense[..j]) then e' == e
      else if d in LexIds(lex) then e' == e.(score := e.score + Rrf(k, j), from := e.from + {Dense})
      else e' == Entry(0.0 + Rrf(k, j), dense[j].contents.GetOr(DenseNoPreview), dense[j].url.GetOr(""), {} + {Dense})
  {
    var p, q := dense[..j], dense[..j + 1];
    assert q[..j] == p;
    assert DenseDocs(q) == DenseDocs(p) + [DocOf(dense[j].docid)];
    var d := DocOf(dense[j].docid);
    if x == d && d !in DenseDocs(p) && d !in LexIds(lex) {
      LexScoreAbsent(lex, x, k);
    }
  }

  lemma {:induction false} DistinctStep(s: seq<string>, x: string)
    ensures Distinct(s + [x]) == if x in Distinct(s) then Distinct(s) else Distinct(s) + [x]
  {
    assert (s + [x])[..|s + [x]| - 1] == s;
  }

  /** The state the two loops build: the keys of `fusion_dict` in insertion order, and the dictionary. */
  datatype Fused = Fused(order: seq<string>, dict: map<string, Entry>)

  /** What the lexical loop does with the hit at rank `i`. */
  function AddLex(st: Fused, hit: Hit, i: nat, k: int): Fused
    requires k >= 0
  {
    var d := hit.docid;
    var st1 := if d in st.dict then st
      else Fused(st.order + [d], st.dict[d := Entry(0.0, hit.contents.GetOr(""), hit.url.GetOr(""), {})]);
    var e := st1.dict[d];
    Fused(st1.order, st1.dict[d := e.(score := e.score + Rrf(k, i), from := e.from + {Bm25})])
  }

  /** The state after the lexical loop has run over `lex`. */
  function LexFold(lex: seq<Hit>, k: int): Fused
    requires k >= 0
  {
    if lex == [] then Fused([], map[])
    else AddLex(LexFold(lex[..|lex| - 1], k), lex[|lex| - 1], |lex| - 1, k)
  }

  /** What the dense loop does with the chunk hit at rank `j`, given the documents already seen. */
  function AddDense(st: Fused, seen: set<string>, hit: Hit, j: nat, k: int): (Fused, set<string>)
    requires k >= 0
  {
    var d := DocOf(hit.docid);
    if d in seen then (st, seen)
    else
      var st1 := if d in st.dict then st
        else Fused(st.order + [d], st.dict[d := Entry(0.0, hit.contents.GetOr(DenseNoPreview), hit.url.GetOr(""), {})]);
      var e := st1.dict[d];
      (Fused(st1.order, st1.dict[d := e.(score := e.score + Rrf(k, j), from := e.from + {Dense})]), seen + {d})
  }

  /** The state and the seen set after the dense loop has run over `dense`, starting from `st0`. */
  function DenseFold(st0: Fused, dense: seq<Hit>, k: int): (Fused, set<string>)
    requires k >= 0
  {
    if dense == [] then (st0, {})
    else
      var p := DenseFold(st0, dense[..|dense| - 1], k);
      AddDense(p.0, p.1, dense[|dense| - 1], |dense| - 1, k)
  }

  /** The state holds, for the hits so far, exactly what `Expected` describes. */
  ghost predicate Describes(st: Fused, lex: seq<Hit>, dense: seq<Hit>, k: int)
    requires k >= 0
  {
    && st.order == FusedOrder(lex, dense)
    && (forall d :: d in st.dict <==> d in st.order)
    && (forall d :: d in st.dict ==> st.dict[d] == Expected(lex, dense, k, d))
  }

  /** One rank of the lexical loop, for the entry of one document `x`. */
  lemma {:induction false} LexEntry(st: Fused, lex: seq<Hit>, i: nat, k: int, x: string)
    requires k >= 0 && i < |lex| && Describes(st, lex[..i], [], k)
    ensures var st' := AddLex(st, lex[i], i, k);
      x in st'.dict ==> st'.dict[x] == Expected(lex[..i + 1], [], k, x)
  {
    LexStep(lex, i, k, x);
    assert LexIds(lex[..i]) + DenseDocs([]) == LexIds(lex[..i]);
  }

  /** One rank of the lexical loop keeps `Describes`. */
  lemma {:induction false} LexFoldStep(st: Fused, lex: seq<Hit>, i: nat, k: int)
    requires k >= 0 && i < |lex| && Describes(st, lex[..i], [], k)
    ensures Describes(AddLex(st, lex[i], i, k), lex[..i + 1], [], k)
  {
    var st' := AddLex(st, lex[i], i, k);
    var p, q := lex[..i], lex[..i + 1];
    var d := lex[i].docid;
    assert st'.order == FusedOrder(q, []) by {
      assert q[..i] == p;
      assert LexIds(q) == LexIds(p) + [d];
      assert LexIds(q) + DenseDocs([]) == LexIds(q);
      assert LexIds(p) + DenseDocs([]) == LexIds(p);
      DistinctStep(LexIds(p), d);
    }
    forall x | x in st'.dict ensures st'.dict[x] == Expected(q, [], k, x) {
      LexEntry(st, lex, i, k, x);
    }
  }

  /** After the lexical loop the dictionary holds the lexical RRF sums, first-hit content and URL. */
  lemma {:induction false} LexFoldDescribes(lex: seq<Hit>, k: int)
    requires k >= 0
    ensures Describes(LexFold(lex, k), lex, [], k)
    decreases |lex|
  {
    if lex == [] {
      assert FusedOrder(lex, []) == Distinct([]);
    } else {
      var i := |lex| - 1;
      assert lex[..i + 1] == lex;
      LexFoldDescribes(lex[..i], k);
      LexFoldStep(LexFold(lex[..i], k), lex, i, k);
    }
  }

  /** One rank of the dense loop, for the entry of one document `x`. */
  lemma {:induction false} DenseEntry(st: Fused, seen: set<string>, lex: seq<Hit>, dense: seq<Hit>, j: nat, k: int, x: string)
    requires k >= 0 && j < |dense| && Describes(st, lex, dense[..j], k)
    requires forall d :: d in seen <==> d in DenseDocs(dense[..j])
    ensures var st' := AddDense(st, seen, dense[j], j, k).0;
      x in st'.dict ==> st'.dict[x] == Expected(lex, dense[..j + 1], k, x)
  {
    DenseStep(lex, dense, j, k, x);
  }

  /** One rank of the dense loop keeps `Describes` and the meaning of the seen set. */
  lemma {:induction false} DenseFoldStep(st: Fused, seen: set<string>, lex: seq<Hit>, dense: seq<Hit>, j: nat, k: int)
    requires k >= 0 && j < |dense| && Describes(st, lex, dense[..j], k)
    requires forall d :: d in seen <==> d in DenseDocs(dense[..j])
    ensures Describes(AddDense(st, seen, dense[j], j, k).0, lex, dense[..j + 1], k)
    ensures forall d :: d in AddDense(st, seen, dense[j], j, k).1 <==> d in DenseDocs(dense[..j + 1])
  {
    var st' := AddDense(st, seen, dense[j], j, k).0;
    DenseOrderStep(st, seen, lex, dense, j, k);
    forall x | x in st'.dict ensures st'.dict[x] == Expected(lex, dense[..j + 1], k, x) {
      DenseEntry(st, seen, lex, dense, j, k, x);
    }
  }

  /** One rank of the dense loop keeps the insertion order, the key set and the seen set in step. */
  lemma {:induction false} DenseOrderStep(st: Fused, seen: set<string>, lex: seq<Hit>, dense: seq<Hit>, j: nat, k: int)
    requires k >= 0 && j < |dense|
    requires st.order == FusedOrder(lex, dense[..j]) && (forall d :: d in st.dict <==> d in st.order)
    requires forall d :: d in seen <==> d in DenseDocs(dense[..j])
    ensures var r := AddDense(st, seen, dense[j], j, k);
      && r.0.order == FusedOrder(lex, dense[..j + 1])
      && (forall d :: d in r.0.dict <==> d in r.0.order)
      && (forall d :: d in r.1 <==> d in DenseDocs(dense[..j + 1]))
  {
    var p, q := dense[..j], dense[..j + 1];
    var d := DocOf(dense[j].docid);
    assert DenseDocs(q) == DenseDocs(p) + [d] by {
      assert q[..j] == p;
    }
    assert LexIds(lex) + DenseDocs(q) == (LexIds(lex) + DenseDocs(p)) + [d];
    DistinctStep(LexIds(lex) + DenseDocs(p), d);
  }

  /** After the dense loop the dictionary holds the fused entries of both retrievers. */
  lemma {:induction false} DenseFoldDescribes(st0: Fused, lex: seq<Hit>, dense: seq<Hit>, k: int)
    requires k >= 0 && Describes(st0, lex, [], k)
    ensures Describes(DenseFold(st0, dense, k).0, lex, dense, k)
    ensures forall d :: d in DenseFold(st0, dense, k).1 <==> d in DenseDocs(dense)
    decreases |dense|
  {
    if dense != [] {
      var j := |dense| - 1;
      assert dense[..j + 1] == dense;
      DenseFoldDescribes(st0, lex, dense[..j], k);
      var p := DenseFold(st0, dense[..j], k);
      DenseFoldStep(p.0, p.1, lex, dense, j, k);
    }
  }

  /** The lexical loop (hybrid_search.py:31-45): every rank of every hit adds its RRF term. */
  method FuseLexical(lex: seq<Hit>, k: int) returns (order: seq<string>, fused: map<string, Entry>)
    requires k >= 0
    ensures Fused(order, fused) == LexFold(lex, k)
  {
    order, fused := [], map[];
    for i := 0 to |lex|
      invariant Fused(order, fused) == LexFold(lex[..i], k)
    {
      assert lex[..i + 1][..i] == lex[..i];
      var hit := lex[i];
      var d := hit.docid;
      if d !in fused {
        fused := fused[d := Entry(0.0, hit.contents.GetOr(""), hit.url.GetOr(""), {})];
        order := order + [d];
      }
      var e := fused[d];
      fused := fused[d := e.(score := e.score + Rrf(k, i), from := e.from + {Bm25})];
    }
    assert lex[..|lex|] == lex;
  }

  /**
   * The dense loop (hybrid_search.py:52-77), continuing from the lexical
   * dictionary: each chunk hit counts for its document, and only the first
   * chunk of each document adds an RRF term or touches the entry.
   */
  method FuseDense(dense: seq<Hit>, k: int, order0: seq<string>, fused0: map<string, Entry>)
    returns (order: seq<string>, fused: map<string, Entry>)
    requires k >= 0
    ensures Fused(order, fused) == DenseFold(Fused(order0, fused0), dense, k).0
  {
    order, fused := order0, fused0;
    var seen: set<string> := {};
    for j := 0 to |dense|
      invariant (Fused(order, fused), seen) == DenseFold(Fused(order0, fused0), dense[..j], k)
    {
      assert dense[..j + 1][..j] == dense[..j];
      order, fused, seen := DenseRank(order, fused, seen, dense[j], j, k);
    }
    assert dense[..|dense|] == dense;
  }

  /** The body of the dense loop for the chunk hit at rank `j`. */
  method DenseRank(order0: seq<string>, fused0: map<string, Entry>, seen0: set<string>, hit: Hit, j: nat, k: int)
    returns (order: seq<string>, fused: map<string, Entry>, seen: set<string>)
    requires k >= 0
    ensures (Fused(order, fused), seen) == AddDense(Fused(order0, fused0), seen0, hit, j, k)
  {
    order, fused, seen := order0, fused0, seen0;
    var d := DocOf(hit.docid);
    if d in seen {
      return;
    }
    seen := seen + {d};
    if d !in fused {
      fused := fused[d := Entry(0.0, hit.contents.GetOr(DenseNoPreview), hit.url.GetOr(""), {})];
      order := order + [d];
    }
    var e := fused[d];
    fused := fused[d := e.(score := e.score + Rrf(k, j), from := e.from + {Dense})];
  }

  /**
   * The accumulation part of `hybrid_search` (hybrid_search.py:26-77): the
   * keys of `fusion_dict` in insertion order, and the dictionary.
   */
  method Fuse(lex: seq<Hit>, dense: seq<Hit>, k: int) returns (order: seq<string>, fused: map<string, Entry>)
    requires k >= 0
    ensures order == FusedOrder(lex, dense)
    ensures forall d :: d in fused <==> d in order
    ensures forall d :: d in fused ==> fused[d] == Expected(lex, dense, k, d)
  {
    order, fused := FuseLexical(lex, k);
    LexFoldDescribes(lex, k);
    order, fused := FuseDense(dense, k, order, fused);
    DenseFoldDescribes(LexFold(lex, k), lex, dense, k);
  }

  // ----- sort, dedup and cut -----

  /** The sort key of `sorted_docs`. */
  function ScoreOf(r: Result): real {
    r.score
  }

  /** The records of `fusion_dict` as `fusion_dict.items()` lists them: in insertion order. */
  function FusedRecords(lex: seq<Hit>, dense: seq<Hit>, k: int): (r: seq<Result>)
    requires k >= 0
    ensures |r| == |FusedOrder(lex, dense)|
  {
    var order := FusedOrder(lex, dense);
    seq(|order|, i requires 0 <= i < |order| => ToResult(order[i], Expected(lex, dense, k, order[i])))
  }

  /** The dedup key of a record: its URL under the query-time normalisation. */
  function KeyOfResult(r: Result): string {
    HybridKey(r.url)
  }

  /** The records of `s` whose key is neither in `seen` nor the key of an earlier record, in order. */
  function KeepFirst(s: seq<Result>, seen: set<string>, key: Result -> string): seq<Result>
    decreases |s|
  {
    if s == [] then []
    else if key(s[0]) in seen then KeepFirst(s[1..], seen, key)
    else [s[0]] + KeepFirst(s[1..], seen + {key(s[0])}, key)
  }

  /** How many records the dedup loop returns at most: it checks `top_k` only after an append. */
  function Limit(topK: int): (r: nat)
    ensures r >= 1
    ensures topK >= 1 ==> r == topK
  {
    if topK >= 1 then topK else 1
  }

  /**
   * The dedup loop (hybrid_search.py:88-131): a record whose key was
   * already seen is dropped, the others are appended in order, and the loop
   * stops as soon as `top_k` records are in. `hybrid_search` keys records by
   * `KeyOfResult`, its normalised URL.
   */
  method Dedup(sorted: seq<Result>, topK: int, key: Result -> string) returns (final: seq<Result>)
    ensures final == Take(KeepFirst(sorted, {}, key), Limit(topK))
  {
    final := [];
    var seen: set<string> := {};
    for i := 0 to |sorted|
      invariant final + KeepFirst(sorted[i..], seen, key) == KeepFirst(sorted, {}, key)
      invariant |final| < Limit(topK)
    {
      DedupStep(sorted, i, final, seen, key);
      var normUrl := key(sorted[i]);
      if normUrl in seen {
        continue;
      }
      seen := seen + {normUrl};
      final := final + [sorted[i]];
      if |final| >= topK {
        TakeOfPrefix(final, KeepFirst(sorted[i + 1..], seen, key), Limit(topK));
        break;
      }
    }
    TakeOfPrefix(final, [], Limit(topK));
  }

  /** The loop of `Dedup` keeps `final` followed by what is still to come equal to the whole deduplicated list. */
  lemma {:induction false} DedupStep(sorted: seq<Result>, i: nat, final: seq<Result>, seen: set<string>, key: Result -> string)
    requires i < |sorted| && final + KeepFirst(sorted[i..], seen, key) == KeepFirst(sorted, {}, key)
    ensures key(sorted[i]) in seen ==> final + KeepFirst(sorted[i + 1..], seen, key) == KeepFirst(sorted, {}, key)
    ensures key(sorted[i]) !in seen ==>
      (final + [sorted[i]]) + KeepFirst(sorted[i + 1..], seen + {key(sorted[i])}, key) == KeepFirst(sorted, {}, key)
  {
    KeepFirstStep(sorted, i, seen, key);
    if key(sorted[i]) !in seen {
      assert (final + [sorted[i]]) + KeepFirst(sorted[i + 1..], seen + {key(sorted[i])}, key)
        == final + ([sorted[i]] + KeepFirst(sorted[i + 1..], seen + {key(sorted[i])}, key));
    }
  }

  /** One step of `KeepFirst` over a suffix of `s`. */
  lemma {:induction false} KeepFirstStep(s: seq<Result>, i: nat, seen: set<string>, key: Result -> string)
    requires i < |s|
    ensures KeepFirst(s[i..], seen, key) == if key(s[i]) in seen then KeepFirst(s[i + 1..], seen, key)
      else [s[i]] + KeepFirst(s[i + 1..], seen + {key(s[i])}, key)
  {
    assert s[i..][1..] == s[i + 1..];
  }

  /** Cutting at the length of a prefix, or beyond a whole list, gives the prefix back. */
  lemma {:induction false} TakeOfPrefix<T>(a: seq<T>, b: seq<T>, n: nat)
    requires |a| == n || (b == [] && |a| <= n)
    ensures Take(a + b, n) == a
  {
    if |a| == n {
      assert (a + b)[..n] == a;
    } else {
      assert a + b == a;
    }
  }

  /** What `hybrid_search` returns for the two hit lists. */
  function HybridResults(lex: seq<Hit>, dense: seq<Hit>, topK: int, k: int): seq<Result>
    requires k >= 0
  {
    Take(KeepFirst(SortDesc(FusedRecords(lex, dense, k), ScoreOf), {}, KeyOfResult), Limit(topK))
  }

  /** The two retrievers, as seen from `hybrid_search`: each either returns its hits or raises (`None`). */
  datatype Retrievers = Retrievers(bm25: (string, int) -> Option<seq<Hit>>, dense: (string, int) -> Option<seq<Hit>>)

  /** How many candidates `hybrid_search` asks each retriever for. */
  function CandidateK(topK: int): int {
    topK * 5
  }

  /** What a call `hybrid_search(query, top_k, k)` returns, or `None` when a retriever raises. */
  function HybridSpec(query: string, topK: int, k: int, rs: Retrievers): Option<seq<Result>>
    requires k >= 0
  {
    var lex, dense := rs.bm25(query, CandidateK(topK)), rs.dense(query, CandidateK(topK));
    if lex.None? || dense.None? then None else Some(HybridResults(lex.value, dense.value, topK, k))
  }

  /** A successful search returns at most `max(top_k, 1)` results, in non-increasing score order. */
  lemma {:induction false} HybridSpecFacts(query: string, topK: int, k: int, rs: Retrievers)
    requires k >= 0 && HybridSpec(query, topK, k, rs).Some?
    ensures |HybridSpec(query, topK, k, rs).value| <= Limit(topK)
    ensures NonIncreasing(HybridSpec(query, topK, k, rs).value, ScoreOf)
  {
    var lex, dense := rs.bm25(query, CandidateK(topK)), rs.dense(query, CandidateK(topK));
    HybridResultsFacts(lex.value, dense.value, topK, k);
  }

  /**
   * `hybrid_search` (hybrid_search.py:11-131): fetch `5 * top_k` candidates
   * from each retriever, fuse them, sort the records by fused score and
   * deduplicate them by URL key, keeping at most `top_k`.
   */
  method HybridSearch(query: string, topK: int, k: int, rs: Retrievers) returns (r: Option<seq<Result>>)
    requires k >= 0
    ensures r == HybridSpec(query, topK, k, rs)
  {
    var candidateK := topK * 5;
    var bm25Hits := rs.bm25(query, candidateK);
    if bm25Hits.None? {
      return None;
    }
    var denseHits := rs.dense(query, candidateK);
    if denseHits.None? {
      return None;
    }
    var lex, dense := bm25Hits.value, denseHits.value;
    var order, fused := Fuse(lex, dense, k);
    var items := seq(|order|, i requires 0 <= i < |order| => ToResult(order[i], fused[order[i]]));
    assert items == FusedRecords(lex, dense, k);
    var sortedDocs := SortDesc(items, ScoreOf);
    var finalResults := Dedup(sortedDocs, topK, KeyOfResult);
    r := Some(finalResults);
  }

  // ----- what the fused records satisfy -----

  /**
   * Every document either retriever returned gets a record (single-source
   * documents are kept), with a positive score and the set of exactly the
   * retrievers that returned it.
   */
  lemma {:induction false} FusedEntryFacts(lex: seq<Hit>, dense: seq<Hit>, k: int, d: string)
    requires k >= 0
    ensures d in FusedOrder(lex, dense) <==> d in LexIds(lex) || d in DenseDocs(dense)
    ensures d in FusedOrder(lex, dense) ==> Expected(lex, dense, k, d).score > 0.0
    ensures Bm25 in Expected(lex, dense, k, d).from <==> d in LexIds(lex)
    ensures Dense in Expected(lex, dense, k, d).from <==> d in DenseDocs(dense)
  {
    var li := FirstIndex(LexIds(lex), d);
    if li.Some? {
      LexScorePositive(lex, d, k, li.value);
    }
  }

  /** A document at some lexical rank has a positive lexical score. */
  lemma {:induction false} LexScorePositive(hits: seq<Hit>, d: string, k: int, r: nat)
    requires k >= 0 && r < |hits| && LexIds(hits)[r] == d
    ensures LexScore(hits, d, k) > 0.0
    decreases |hits|
  {
    var n := |hits| - 1;
    assert LexIds(hits) == LexIds(hits[..n]) + [hits[n].docid];
    if r < n {
      LexScorePositive(hits[..n], d, k, r);
    }
  }

  /**
   * A dense chunk of a document whose earlier chunk was already seen changes
   * nothing: not the score, not the `from` set, not the content or URL, and
   * not the insertion order.
   */
  lemma {:induction false} LaterChunkIgnored(lex: seq<Hit>, dense: seq<Hit>, j: nat, k: int, x: string)
    requires k >= 0 && j < |dense| && DocOf(dense[j].docid) in DenseDocs(dense[..j])
    ensures Expected(lex, dense[..j + 1], k, x) == Expected(lex, dense[..j], k, x)
    ensures FusedOrder(lex, dense[..j + 1]) == FusedOrder(lex, dense[..j])
  {
    DenseStep(lex, dense, j, k, x);
    LaterChunkKeepsOrder(lex, dense, j);
  }

  lemma {:induction false} LaterChunkKeepsOrder(lex: seq<Hit>, dense: seq<Hit>, j: nat)
    requires j < |dense| && DocOf(dense[j].docid) in DenseDocs(dense[..j])
    ensures FusedOrder(lex, dense[..j + 1]) == FusedOrder(lex, dense[..j])
  {
    var p, q := dense[..j], dense[..j + 1];
    var d := DocOf(dense[j].docid);
    assert DenseDocs(q) == DenseDocs(p) + [d] by {
      assert q[..j] == p;
    }
    assert LexIds(lex) + DenseDocs(q) == (LexIds(lex) + DenseDocs(p)) + [d];
    DistinctStep(LexIds(lex) + DenseDocs(p), d);
  }

  /**
   * The first retriever to see a document supplies its content and URL: the
   * lexical hit of its best lexical rank if it has one, else the hit of its
   * best dense rank.
   */
  lemma {:induction false} FirstSightingWins(lex: seq<Hit>, dense: seq<Hit>, k: int, i: nat)
    requires k >= 0 && i < |lex| && lex[i].docid !in LexIds(lex[..i])
    ensures Expected(lex, dense, k, lex[i].docid).content == lex[i].contents.GetOr("")
    ensures Expected(lex, dense, k, lex[i].docid).url == lex[i].url.GetOr("")
  {
    LexIdsPrefix(lex, i);
    FirstIndexOf(LexIds(lex), lex[i].docid, i);
  }

  /** A dense hit whose document the lexical list lacks and no earlier chunk named supplies its content and URL. */
  lemma {:induction false} FirstDenseSightingWins(lex: seq<Hit>, dense: seq<Hit>, k: int, j: nat)
    requires k >= 0 && j < |dense|
    requires DocOf(dense[j].docid) !in LexIds(lex) && DocOf(dense[j].docid) !in DenseDocs(dense[..j])
    ensures Expected(lex, dense, k, DocOf(dense[j].docid)).content == dense[j].contents.GetOr(DenseNoPreview)
    ensures Expected(lex, dense, k, DocOf(dense[j].docid)).url == dense[j].url.GetOr("")
    ensures Expected(lex, dense, k, DocOf(dense[j].docid)).score == Rrf(k, j)
  {
    var d := DocOf(dense[j].docid);
    DenseDocsPrefix(dense, j);
    LexScoreAbsent(lex, d, k);
    FirstIndexOf(DenseDocs(dense), d, j);
  }

  /** The first occurrence of `d` is where it occurs with no occurrence before. */
  lemma {:induction false} FirstIndexOf(s: seq<string>, d: string, i: nat)
    requires i < |s| && s[i] == d && d !in s[..i]
    ensures FirstIndex(s, d) == Some(i)
    decreases |s|
  {
    var p := s[..|s| - 1];
    if i < |s| - 1 {
      assert p[..i] == s[..i];
      FirstIndexOf(p, d, i);
    } else {
      assert p == s[..i];
    }
  }

  lemma {:induction false} LexIdsPrefix(hits: seq<Hit>, i: nat)
    requires i < |hits|
    ensures LexIds(hits)[..i] == LexIds(hits[..i])
    ensures LexIds(hits)[i] == hits[i].docid
    decreases |hits|
  {
    var n := |hits| - 1;
    assert LexIds(hits) == LexIds(hits[..n]) + [hits[n].docid];
    if i < n {
      assert hits[..n][..i] == hits[..i];
      LexIdsPrefix(hits[..n], i);
    }
  }

  lemma {:induction false} DenseDocsPrefix(hits: seq<Hit>, i: nat)
    requires i < |hits|
    ensures DenseDocs(hits)[..i] == DenseDocs(hits[..i])
    ensures DenseDocs(hits)[i] == DocOf(hits[i].docid)
    decreases |hits|
  {
    var n := |hits| - 1;
    assert DenseDocs(hits) == DenseDocs(hits[..n]) + [DocOf(hits[n].docid)];
    if i < n {
      assert hits[..n][..i] == hits[..i];
      DenseDocsPrefix(hits[..n], i);
    }
  }

  // ----- sort and dedup -----

  /** The kept records are records of `s`, in their order in `s`. */
  lemma {:induction false} KeepFirstSubseq(s: seq<Result>, seen: set<string>, key: Result -> string)
    ensures Subseq(KeepFirst(s, seen, key), s)
    decreases |s|
  {
    if s != [] {
      KeepFirstSubseq(s[1..], seen, key);
      KeepFirstSubseq(s[1..], seen + {key(s[0])}, key);
      var r := KeepFirst(s, seen, key);
      if key(s[0]) !in seen {
        assert r[0] == s[0] && r[1..] == KeepFirst(s[1..], seen + {key(s[0])}, key);
      }
    }
  }

  /** No two kept records share a key, and no kept key was seen before. */
  lemma {:induction false} KeepFirstKeys(s: seq<Result>, seen: set<string>, key: Result -> string)
    ensures forall i :: 0 <= i < |KeepFirst(s, seen, key)| ==> key(KeepFirst(s, seen, key)[i]) !in seen
    ensures forall i, j :: 0 <= i < j < |KeepFirst(s, seen, key)| ==>
      key(KeepFirst(s, seen, key)[i]) != key(KeepFirst(s, seen, key)[j])
    decreases |s|
  {
    if s != [] {
      KeepFirstKeys(s[1..], seen, key);
      KeepFirstKeys(s[1..], seen + {key(s[0])}, key);
      var r := KeepFirst(s, seen, key);
      if key(s[0]) !in seen {
        var t := KeepFirst(s[1..], seen + {key(s[0])}, key);
        assert r == [s[0]] + t;
        forall i, j | 0 <= i < j < |r| ensures key(r[i]) != key(r[j]) {
          assert r[j] == t[j - 1];
          if i > 0 {
            assert r[i] == t[i - 1];
          }
        }
      }
    }
  }

  /** Some record of `r` has key `v`. */
  predicate HasKey(r: seq<Result>, key: Result -> string, v: string) {
    exists y :: y in r && key(y) == v
  }

  /** Every key of `s` that was not seen before is the key of some kept record. */
  lemma {:induction false} KeepFirstComplete(s: seq<Result>, seen: set<string>, key: Result -> string)
    ensures forall x :: x in s && key(x) !in seen ==> HasKey(KeepFirst(s, seen, key), key, key(x))
    decreases |s|
  {
    if s != [] {
      KeepFirstComplete(s[1..], seen, key);
      KeepFirstComplete(s[1..], seen + {key(s[0])}, key);
      var r := KeepFirst(s, seen, key);
      forall x | x in s && key(x) !in seen ensures HasKey(r, key, key(x)) {
        if key(s[0]) !in seen {
          var t := KeepFirst(s[1..], seen + {key(s[0])}, key);
          assert r == [s[0]] + t;
          if key(x) == key(s[0]) {
            assert s[0] in r;
          } else {
            assert x in s[1..];
            var y :| y in t && key(y) == key(x);
            assert y in r;
          }
        } else {
          assert x in s[1..];
        }
      }
    }
  }

  /** The record kept for a key comes no later than any record of `s` with that key. */
  lemma {:induction false} KeepFirstEarliest(s: seq<Result>, seen: set<string>, key: Result -> string)
    ensures forall r, i :: r in KeepFirst(s, seen, key) && 0 <= i < |s| && key(s[i]) == key(r) ==> r in s[..i + 1]
    decreases |s|
  {
    if s != [] {
      KeepFirstEarliest(s[1..], seen, key);
      KeepFirstEarliest(s[1..], seen + {key(s[0])}, key);
      KeepFirstKeys(s, seen, key);
      var k := KeepFirst(s, seen, key);
      forall r, i | r in k && 0 <= i < |s| && key(s[i]) == key(r) ensures r in s[..i + 1] {
        if i > 0 {
          assert s[1..][i - 1] == s[i];
          assert s[1..][..i] == s[1..i + 1];
        }
        if key(s[0]) !in seen {
          var t := KeepFirst(s[1..], seen + {key(s[0])}, key);
          assert k == [s[0]] + t;
          if r != s[0] {
            assert r in t;
            var m :| 0 <= m < |t| && t[m] == r;
            KeepFirstKeys(s[1..], seen + {key(s[0])}, key);
            assert key(r) != key(s[0]);
          }
        } else {
          var m :| 0 <= m < |k| && k[m] == r;
          assert key(r) != key(s[0]);
        }
      }
    }
  }

  /**
   * What `hybrid_search` returns: at most `top_k` records (one when
   * `top_k <= 0`), taken in order from the score-sorted fused records, with
   * pairwise-distinct normalised URLs; when fewer than that limit come back,
   * every normalised URL among the fused records is represented.
   */
  lemma {:induction false} HybridResultsFacts(lex: seq<Hit>, dense: seq<Hit>, topK: int, k: int)
    requires k >= 0
    ensures |HybridResults(lex, dense, topK, k)| <= Limit(topK)
    ensures NonIncreasing(HybridResults(lex, dense, topK, k), ScoreOf)
    ensures forall r :: r in HybridResults(lex, dense, topK, k) ==> r in FusedRecords(lex, dense, k)
    ensures forall i, j :: 0 <= i < j < |HybridResults(lex, dense, topK, k)| ==>
      KeyOfResult(HybridResults(lex, dense, topK, k)[i]) != KeyOfResult(HybridResults(lex, dense, topK, k)[j])
    ensures Subseq(HybridResults(lex, dense, topK, k), SortDesc(FusedRecords(lex, dense, k), ScoreOf))
    ensures |HybridResults(lex, dense, topK, k)| < Limit(topK) ==>
      forall x :: x in FusedRecords(lex, dense, k) ==> HasKey(HybridResults(lex, dense, topK, k), KeyOfResult, KeyOfResult(x))
  {
    var items := FusedRecords(lex, dense, k);
    var sorted := SortDesc(items, ScoreOf);
    var kept := KeepFirst(sorted, {}, KeyOfResult);
    var r := HybridResults(lex, dense, topK, k);
    assert r == kept[..|r|];
    SortDescNonIncreasing(items, ScoreOf);
    SortDescPermutes(items, ScoreOf);
    KeepFirstSubseq(sorted, {}, KeyOfResult);
    PrefixSubseq(kept, |r|);
    SubseqTrans(r, kept, sorted);
    SubseqNonIncreasing(r, sorted, ScoreOf);
    forall x | x in r ensures x in items {
      assert x in multiset(sorted);
    }
    KeepFirstKeys(sorted, {}, KeyOfResult);
    KeepFirstComplete(sorted, {}, KeyOfResult);
    if |r| < Limit(topK) {
      assert r == kept;
      forall x | x in items ensures x in sorted {
        assert x in multiset(items);
      }
    }
  }

  /** At most one record of `r` has URL `u`. */
  predicate AtMostOneWithUrl(r: seq<Result>, u: string) {
    forall i, j :: 0 <= i < |r| && 0 <= j < |r| && r[i].url == u && r[j].url == u ==> i == j
  }

  /** All records without a URL collapse into the first of them. */
  lemma {:induction false} UrlLessCollapse(lex: seq<Hit>, dense: seq<Hit>, topK: int, k: int)
    requires k >= 0
    ensures AtMostOneWithUrl(HybridResults(lex, dense, topK, k), "")
  {
    HybridResultsFacts(lex, dense, topK, k);
    KeyOfEmpty(HybridIndexPages);
  }

  /**
   * Records with equal fused scores keep the insertion order of `fusion_dict`:
   * lexical documents by first lexical rank, then dense-only documents by
   * first dense rank.
   */
  lemma {:induction false} TiesKeepInsertionOrder(lex: seq<Hit>, dense: seq<Hit>, k: int, v: real)
    requires k >= 0
    ensures KeyFilter(SortDesc(FusedRecords(lex, dense, k), ScoreOf), ScoreOf, v) == KeyFilter(FusedRecords(lex, dense, k), ScoreOf, v)
  {
    SortDescStable(FusedRecords(lex, dense, k), ScoreOf, v);
  }

  /**
   * "h/", "h/index.html" and a third URL with another key: the second record
   * is a duplicate of the first and is dropped, score and all.
   */
  lemma {:induction false} DedupExample(h: string, a: Result, b: Result, c: Result)
    requires Trimmed(h) && h != [] && h[|h| - 1] != ':' && HybridKey(h) == h
    requires a.url == h + "/" && b.url == h + "/index.html" && HybridKey(c.url) != h
    ensures KeepFirst([a, b, c], {}, KeyOfResult) == [a, c]
  {
    SlashVariant(h);
    IndexVariant(h);
    KeepFirstOfThree(a, b, c, KeyOfResult);
  }

  lemma {:induction false} KeepFirstOfThree(a: Result, b: Result, c: Result, key: Result -> string)
    requires key(a) == key(b) && key(c) != key(a)
    ensures KeepFirst([a, b, c], {}, key) == [a, c]
  {
    var seen: set<string> := {key(a)};
    assert [a, b, c][1..] == [b, c] && [b, c][1..] == [c] && [c][1..] == [];
    assert KeepFirst([c], seen, key) == [c];
    assert KeepFirst([b, c], seen, key) == [c];
    assert KeepFirst([a, b, c], {}, key) == [a] + KeepFirst([b, c], {} + {key(a)}, key);
    assert {} + {key(a)} == seen;
  }

  lemma {:induction false} SlashVariant(h: string)
    requires Trimmed(h) && h != [] && h[|h| - 1] != ':' && HybridKey(h) == h
    ensures HybridKey(h + "/") == h
  {
    KeyFixedPoint(h, HybridIndexPages);
    assert Slashes(1) == "/";
    TrailingSlashesIgnored(h, 1);
  }

  lemma {:induction false} IndexVariant(h: string)
    requires HybridKey(h) == h
    ensures HybridKey(h + "/index.html") == h
  {
    assert "html" in HybridIndexPages && MatchesIgnoreCase("/index.html", IndexPage("html"));
    IndexPageIgnored(h, "/index.html");
  }

  // ----- a worked example with k = 60 -----

  /** Three different document ids, none containing "_chunk". */
  predicate ExampleIdsOk(a: string, b: string, c: string) {
    a != b && b != c && a != c && !Contains(b, ChunkMarker) && !Contains(c, ChunkMarker)
  }

  function ExampleLex(a: string, b: string): seq<Hit> {
    [Hit(a, None, None), Hit(b, None, None)]
  }

  /** Chunk 0 of `b` and chunk 1 of `c`. */
  function ExampleDense(b: string, c: string): seq<Hit> {
    [Hit(ChunkId(b, 0), None, None), Hit(ChunkId(c, 1), None, None)]
  }

  lemma {:induction false} ExampleLists(a: string, b: string, c: string)
    requires ExampleIdsOk(a, b, c)
    ensures LexIds(ExampleLex(a, b)) == [a, b]
    ensures DenseDocs(ExampleDense(b, c)) == [b, c]
  {
    var lex, dense := ExampleLex(a, b), ExampleDense(b, c);
    assert lex[..1] == [lex[0]] && [lex[0]][..0] == [];
    assert dense[..1] == [dense[0]] && [dense[0]][..0] == [];
    ChunkIdRoundTrip(b, 0);
    ChunkIdRoundTrip(c, 1);
  }

  lemma {:induction false} ExampleOrder(a: string, b: string, c: string)
    requires ExampleIdsOk(a, b, c)
    ensures FusedOrder(ExampleLex(a, b), ExampleDense(b, c)) == [a, b, c]
  {
    ExampleLists(a, b, c);
    assert LexIds(ExampleLex(a, b)) + DenseDocs(ExampleDense(b, c)) == [a, b, b, c];
    ExampleDistinct(a, b, c);
  }

  /** The repeated `b` is dropped and the rest keeps its order. */
  lemma {:induction false} ExampleDistinct(a: string, b: string, c: string)
    requires a != b && b != c && a != c
    ensures Distinct([a, b, b, c]) == [a, b, c]
  {
    var s1: seq<string> := [] + [a];
    var s2 := s1 + [b];
    var s3 := s2 + [b];
    DistinctStep([], a);
    DistinctStep(s1, b);
    DistinctStep(s2, b);
    DistinctStep(s3, c);
    assert s3 + [c] == [a, b, b, c];
    assert s1 + [b] + [c] == [a, b, c];
  }

  lemma {:induction false} ExampleLexScores(a: string, b: string, c: string)
    requires ExampleIdsOk(a, b, c)
    ensures LexScore(ExampleLex(a, b), a, 60) == 1.0 / 61.0
    ensures LexScore(ExampleLex(a, b), b, 60) == 1.0 / 62.0
    ensures LexScore(ExampleLex(a, b), c, 60) == 0.0
  {
    var lex := ExampleLex(a, b);
    var p := lex[..1];
    assert p == [lex[0]] && p[..0] == [];
    assert Rrf(60, 0) == 1.0 / 61.0 && Rrf(60, 1) == 1.0 / 62.0;
    forall d ensures LexScore(lex, d, 60) == (if d == a then Rrf(60, 0) else 0.0) + (if d == b then Rrf(60, 1) else 0.0) {
      assert LexScore(p, d, 60) == LexScore([], d, 60) + (if a == d then Rrf(60, 0) else 0.0);
    }
  }

  lemma {:induction false} ExampleScoreA(a: string, b: string, c: string)
    requires ExampleIdsOk(a, b, c)
    ensures Expected(ExampleLex(a, b), ExampleDense(b, c), 60, a) == Entry(1.0 / 61.0, "", "", {Bm25})
  {
    ExampleLists(a, b, c);
    ExampleLexScores(a, b, c);
    FirstIndexOf([a, b], a, 0);
  }

  lemma {:induction false} ExampleScoreB(a: string, b: string, c: string)
    requires ExampleIdsOk(a, b, c)
    ensures Expected(ExampleLex(a, b), ExampleDense(b, c), 60, b) == Entry(1.0 / 61.0 + 1.0 / 62.0, "", "", {Bm25, Dense})
  {
    ExampleLists(a, b, c);
    ExampleLexScores(a, b, c);
    FirstIndexOf([a, b], b, 1);
    FirstIndexOf([b, c], b, 0);
    assert Rrf(60, 0) == 1.0 / 61.0;
  }

  lemma {:induction false} ExampleScoreC(a: string, b: string, c: string)
    requires ExampleIdsOk(a, b, c)
    ensures Expected(ExampleLex(a, b), ExampleDense(b, c), 60, c) == Entry(1.0 / 62.0, DenseNoPreview, "", {Dense})
  {
    ExampleLists(a, b, c);
    ExampleLexScores(a, b, c);
    FirstIndexOf([b, c], c, 1);
    assert Rrf(60, 1) == 1.0 / 62.0;
  }

  /**
   * Lexical hits [A, B] and dense hits [B_chunk0, C_chunk1] with k = 60 fuse
   * to B = 1/61 + 1/62, A = 1/61, C = 1/62, sorted as [B, A, C].
   */
  lemma {:induction false} RrfExample(a: string, b: string, c: string)
    requires ExampleIdsOk(a, b, c)
    ensures var s := SortDesc(FusedRecords(ExampleLex(a, b), ExampleDense(b, c), 60), ScoreOf);
      && |s| == 3
      && s[0] == Result(b, 1.0 / 61.0 + 1.0 / 62.0, "", "", {Bm25, Dense})
      && s[1] == Result(a, 1.0 / 61.0, "", "", {Bm25})
      && s[2] == Result(c, 1.0 / 62.0, "", DenseNoPreview, {Dense})
  {
    ExampleOrder(a, b, c);
    ExampleScoreA(a, b, c);
    ExampleScoreB(a, b, c);
    ExampleScoreC(a, b, c);
    var ra := Result(a, 1.0 / 61.0, "", "", {Bm25});
    var rb := Result(b, 1.0 / 61.0 + 1.0 / 62.0, "", "", {Bm25, Dense});
    var rc := Result(c, 1.0 / 62.0, "", DenseNoPreview, {Dense});
    var items := FusedRecords(ExampleLex(a, b), ExampleDense(b, c), 60);
    assert items == [ra, rb, rc];
    SortThree(ra, rb, rc);
  }

  lemma {:induction false} SortThree(ra: Result, rb: Result, rc: Result)
    requires ra.score == 1.0 / 61.0 && rb.score == 1.0 / 61.0 + 1.0 / 62.0 && rc.score == 1.0 / 62.0
    ensures SortDesc([ra, rb, rc], ScoreOf) == [rb, ra, rc]
  {
    assert [ra, rb, rc][1..] == [rb, rc] && [rb, rc][1..] == [rc] && [rc][1..] == [];
    assert SortDesc([rc], ScoreOf) == [rc];
    assert SortDesc([rb, rc], ScoreOf) == [rb, rc];
    assert Insert(ra, [rc], ScoreOf) == [ra, rc];
  }
}
