/**
 * The sliding-window chunker and the chunk-id scheme of the dense index
 * (build_dense_index.py). A document's stripped text is cut into windows of
 * `size` characters whose starts are `size - overlap` apart; window `i` of
 * document `d` is indexed under the id "d_chunk<i>", and the query side
 * recovers "d" by cutting the id at the first "_chunk".
 */
module Chunking {
  import opened PyStr

  /** build_dense_index.py:14-15 */
  const ChunkSize: int := 300
  const ChunkOverlap: int := 50

  /** The text between a document id and a chunk number. */
  const ChunkMarker: string := "_chunk"

  // ----- chunk_text -----

  /** `t[start:end]` with `end = min(start + size, len(t))`: the window the loop appends. */
  function Window(t: string, start: int, size: int): string {
    Slice(t, start, if start + size < |t| then start + size else |t|)
  }

  /** The windows the loop appends from `start` on, for a positive stride. */
  function WindowsFrom(t: string, start: nat, size: int, stride: int): seq<string>
    requires stride > 0
    decreases |t| - start
  {
    if start >= |t| then [] else [Window(t, start, size)] + WindowsFrom(t, start + stride, size, stride)
  }

  /**
   * Whether `chunk_text(text, size, overlap)` returns at all: the loop only
   * advances when `size > overlap`, and does not run on blank text.
   */
  predicate Returns(text: string, size: int, overlap: int) {
    size > overlap || Strip(text) == []
  }

  /** What `chunk_text` returns, on the arguments on which it returns. */
  function Chunks(text: string, size: int, overlap: int): seq<string>
    requires Returns(text, size, overlap)
  {
    var t := Strip(text);
    if t == [] then [] else WindowsFrom(t, 0, size, size - overlap)
  }

  /** build_dense_index.py's `chunk_text`. */
  method ChunkText(text: string, size: int, overlap: int) returns (chunks: seq<string>)
    requires Returns(text, size, overlap)
    ensures chunks == Chunks(text, size, overlap)
  {
    var t := Strip(text);
    if t == [] {
      chunks := [];
    } else {
      chunks := Slide(t, size, size - overlap);
    }
  }

  /** The loop of `chunk_text` over the stripped text `t`, for a positive stride. */
  method Slide(t: string, size: int, stride: int) returns (chunks: seq<string>)
    requires stride > 0
    ensures chunks == WindowsFrom(t, 0, size, stride)
  {
    chunks := [];
    var start := 0;
    while start < |t|
      invariant 0 <= start
      invariant chunks + WindowsFrom(t, start, size, stride) == WindowsFrom(t, 0, size, stride)
      decreases |t| - start
    {
      var end := if start + size < |t| then start + size else |t|;
      WindowsFromStep(chunks, t, start, size, stride);
      chunks := chunks + [Slice(t, start, end)];
      start := start + stride;
    }
    assert chunks + [] == chunks;
  }

  /** One more window: the loop's step, seen from the windows still to come. */
  lemma {:induction false} WindowsFromStep(done: seq<string>, t: string, start: nat, size: int, stride: int)
    requires stride > 0 && start < |t|
    ensures done + WindowsFrom(t, start, size, stride)
      == (done + [Window(t, start, size)]) + WindowsFrom(t, start + stride, size, stride)
  {
    var rest := WindowsFrom(t, start + stride, size, stride);
    assert WindowsFrom(t, start, size, stride) == [Window(t, start, size)] + rest;
  }

  /** `n * stride`, by repeated addition: the value of `start` after `n` iterations of the loop. */
  function Steps(n: nat, stride: int): int {
    if n == 0 then 0 else Steps(n - 1, stride) + stride
  }

  lemma {:induction false} StepsIsProduct(n: nat, stride: int)
    ensures Steps(n, stride) == n * stride
  {
    if n > 0 {
      StepsIsProduct(n - 1, stride);
      assert (n - 1) * stride + stride == n * stride;
    }
  }

  /**
   * With `size <= overlap` the loop never advances: on non-blank text its
   * guard `start < len(text)` holds after every number of iterations.
   */
  lemma {:induction false} NeverAdvances(text: string, size: int, overlap: int, n: nat)
    requires size <= overlap && 0 < |Strip(text)|
    ensures Steps(n, size - overlap) <= 0 < |Strip(text)|
  {
    NeverPositive(size - overlap, n);
  }

  /** A non-positive step keeps `start` at or below 0. */
  lemma {:induction false} NeverPositive(stride: int, n: nat)
    requires stride <= 0
    ensures Steps(n, stride) <= 0
  {
    if n > 0 {
      NeverPositive(stride, n - 1);
    }
  }

  lemma {:induction false} WindowsFromAt(t: string, s0: nat, size: int, stride: int, i: nat)
    requires stride > 0 && i < |WindowsFrom(t, s0, size, stride)|
    ensures 0 <= s0 + Steps(i, stride) < |t|
    ensures WindowsFrom(t, s0, size, stride)[i] == Window(t, s0 + Steps(i, stride), size)
    decreases i
  {
    var ws' := WindowsFrom(t, s0 + stride, size, stride);
    assert WindowsFrom(t, s0, size, stride) == [Window(t, s0, size)] + ws';
    if i > 0 {
      WindowsFromAt(t, s0 + stride, size, stride, i - 1);
      assert s0 + stride + Steps(i - 1, stride) == s0 + Steps(i, stride);
      assert WindowsFrom(t, s0, size, stride)[i] == ws'[i - 1];
    }
  }

  /**
   * Chunk `i` is `t[i*stride : min(i*stride + size, len(t))]` of the stripped
   * text `t`, and its start lies inside `t`.
   */
  lemma {:induction false} ChunkIndexed(text: string, size: int, overlap: int, i: nat)
    requires size > overlap
    requires i < |Chunks(text, size, overlap)|
    ensures 0 <= i * (size - overlap) < |Strip(text)|
    ensures Chunks(text, size, overlap)[i] == Window(Strip(text), i * (size - overlap), size)
  {
    var t, d := Strip(text), size - overlap;
    assert Chunks(text, size, overlap) == WindowsFrom(t, 0, size, d);
    WindowsFromAt(t, 0, size, d, i);
    StepsIsProduct(i, d);
  }

  lemma {:induction false} WindowsFromCount(t: string, s0: nat, size: int, stride: int)
    requires stride > 0
    ensures var n := |WindowsFrom(t, s0, size, stride)|;
      (s0 >= |t| ==> n == 0) &&
      (s0 < |t| ==> n > 0 && s0 + Steps(n - 1, stride) < |t| <= s0 + Steps(n, stride))
    decreases |t| - s0
  {
    if s0 < |t| {
      WindowsFromCount(t, s0 + stride, size, stride);
      var m := |WindowsFrom(t, s0 + stride, size, stride)|;
      assert |WindowsFrom(t, s0, size, stride)| == m + 1;
      assert s0 + stride + Steps(m, stride) == s0 + Steps(m + 1, stride);
      if m > 0 {
        assert s0 + stride + Steps(m - 1, stride) == s0 + Steps(m, stride);
      }
    }
  }

  /**
   * The number of chunks of non-blank text is the ceiling of
   * `len(text) / (size - overlap)`: the least `n` with `n * (size - overlap) >= len(text)`.
   */
  lemma {:induction false} ChunkCount(text: string, size: int, overlap: int)
    requires size > overlap
    ensures var t, n, d := Strip(text), |Chunks(text, size, overlap)|, size - overlap;
      (t == [] ==> n == 0) && (t != [] ==> (n - 1) * d < |t| <= n * d)
  {
    var t, d := Strip(text), size - overlap;
    WindowsFromCount(t, 0, size, d);
    if t != [] {
      var n := |Chunks(text, size, overlap)|;
      assert n == |WindowsFrom(t, 0, size, d)|;
      StepsIsProduct(n - 1, d);
      StepsIsProduct(n, d);
    }
  }

  lemma {:induction false} WindowBounded(t: string, p: int, size: int)
    requires 0 <= p < |t| && 1 <= size
    ensures 0 < |Window(t, p, size)| <= size
  {
  }

  /** With a positive size every chunk is non-empty and at most `size` characters long. */
  lemma {:induction false} ChunksBounded(text: string, size: int, overlap: int, i: nat)
    requires 1 <= size && size > overlap
    requires i < |Chunks(text, size, overlap)|
    ensures 0 < |Chunks(text, size, overlap)[i]| <= size
  {
    var t, p := Strip(text), i * (size - overlap);
    ChunkIndexed(text, size, overlap, i);
    assert Chunks(text, size, overlap)[i] == Window(t, p, size);
    WindowBounded(t, p, size);
  }

  /** Character `j` of `t` sits at offset `j - p` of a chunk `c` that starts at `p`. */
  predicate CoversAt(c: string, p: int, t: string, j: int) {
    0 <= j < |t| && p <= j < p + |c| && c[j - p] == t[j]
  }

  /** The index of the first window, of those starting at `s0`, `s0 + stride`, …, whose stride holds `j`. */
  function CoverIndex(s0: nat, stride: int, j: nat): nat
    requires stride > 0
    decreases j - s0
  {
    if j < s0 + stride then 0 else 1 + CoverIndex(s0 + stride, stride, j)
  }

  lemma {:induction false} WindowsFromCover(t: string, s0: nat, size: int, stride: int, j: nat)
    requires 0 < stride <= size && s0 <= j < |t|
    ensures var i := CoverIndex(s0, stride, j);
      i < |WindowsFrom(t, s0, size, stride)| && CoversAt(WindowsFrom(t, s0, size, stride)[i], s0 + Steps(i, stride), t, j)
    decreases |t| - s0
  {
    if j < s0 + stride {
      CoverFirst(t, s0, size, stride, j);
    } else {
      WindowsFromCover(t, s0 + stride, size, stride, j);
      CoverLater(t, s0, size, stride, j);
    }
  }

  /** The first window covers the characters before `s0 + stride`. */
  lemma {:induction false} CoverFirst(t: string, s0: nat, size: int, stride: int, j: nat)
    requires 0 < stride <= size && s0 <= j < |t| && j < s0 + stride
    ensures 0 < |WindowsFrom(t, s0, size, stride)|
    ensures CoversAt(WindowsFrom(t, s0, size, stride)[0], s0 + Steps(0, stride), t, j)
  {
    var ws := WindowsFrom(t, s0, size, stride);
    assert ws[0] == t[s0..if s0 + size < |t| then s0 + size else |t|];
  }

  /** A cover by a later window, seen from one start earlier. */
  lemma {:induction false} CoverLater(t: string, s0: nat, size: int, stride: int, j: nat)
    requires 0 < stride <= size && s0 + stride <= j < |t|
    requires var i := CoverIndex(s0 + stride, stride, j);
      i < |WindowsFrom(t, s0 + stride, size, stride)| && CoversAt(WindowsFrom(t, s0 + stride, size, stride)[i], s0 + stride + Steps(i, stride), t, j)
    ensures var i := CoverIndex(s0, stride, j);
      i < |WindowsFrom(t, s0, size, stride)| && CoversAt(WindowsFrom(t, s0, size, stride)[i], s0 + Steps(i, stride), t, j)
  {
    var i := CoverIndex(s0 + stride, stride, j);
    var ws, ws' := WindowsFrom(t, s0, size, stride), WindowsFrom(t, s0 + stride, size, stride);
    assert ws == [Window(t, s0, size)] + ws';
    assert ws[i + 1] == ws'[i];
    assert s0 + Steps(i + 1, stride) == s0 + stride + Steps(i, stride);
  }

  /**
   * With a non-negative overlap the chunks cover the stripped text: every
   * character sits at its own offset in some chunk.
   */
  lemma {:induction false} ChunksCover(text: string, size: int, overlap: int, j: nat)
    requires 0 <= overlap < size && j < |Strip(text)|
    ensures exists i :: (0 <= i < |Chunks(text, size, overlap)| &&
                         CoversAt(Chunks(text, size, overlap)[i], i * (size - overlap), Strip(text), j))
  {
    var t, stride := Strip(text), size - overlap;
    WindowsFromCover(t, 0, size, stride, j);
    var i := CoverIndex(0, stride, j);
    StepsIsProduct(i, stride);
    assert Chunks(text, size, overlap) == WindowsFrom(t, 0, size, stride);
    assert CoversAt(Chunks(text, size, overlap)[i], i * stride, t, j);
  }




  /** Empty or white-space-only text yields no chunks, whatever the window. */
  lemma {:induction false} BlankTextNoChunks(text: string, size: int, overlap: int)
    requires AllSpace(text)
    ensures Returns(text, size, overlap) && Chunks(text, size, overlap) == []
  {
    AllSpaceStripsAway(text);
  }

  // ----- chunk ids -----

  /** f"{docid}_chunk{idx}" (build_dense_index.py:67). */
  function ChunkId(docid: string, idx: nat): string {
    docid + ChunkMarker + NatToString(idx)
  }

  /** `raw_id.split("_chunk")[0]`: the document a dense hit belongs to (hybrid_search.py:57). */
  function DocOf(id: string): (r: string)
    ensures |r| <= |id| && r == id[..|r|]
  {
    SplitHead(id, ChunkMarker)
  }

  /** An id in which "_chunk" does not occur is its own document. */
  lemma {:induction false} DocOfPlainId(id: string)
    requires !Contains(id, ChunkMarker)
    ensures DocOf(id) == id
  {
    var r := DocOf(id);
    assert !OccursAt(id, ChunkMarker, |r|);
  }

  /** Cutting at "_chunk" twice is cutting once. */
  lemma {:induction false} DocOfIdempotent(id: string)
    ensures DocOf(DocOf(id)) == DocOf(id)
  {
    var r := DocOf(id);
    forall i | 0 <= i <= |r| ensures !OccursAt(r, ChunkMarker, i) {
      if i + |ChunkMarker| <= |r| {
        assert r[i..i + |ChunkMarker|] == id[i..i + |ChunkMarker|];
        assert !OccursAt(id, ChunkMarker, i);
      }
    }
    DocOfPlainId(r);
  }

  /**
   * Splitting a generated chunk id at "_chunk" gives back the document id,
   * provided the document id does not itself contain "_chunk".
   */
  lemma {:induction false} ChunkIdRoundTrip(docid: string, idx: nat)
    requires !Contains(docid, ChunkMarker)
    ensures DocOf(ChunkId(docid, idx)) == docid
  {
    var s := ChunkId(docid, idx);
    var n := |docid|;
    assert s[n..n + |ChunkMarker|] == ChunkMarker;
    forall i | 0 <= i < n ensures !OccursAt(s, ChunkMarker, i) {
      if i + |ChunkMarker| <= n {
        assert s[i..i + |ChunkMarker|] == docid[i..i + |ChunkMarker|];
        assert !OccursAt(docid, ChunkMarker, i);
      } else {
        OccursAtChar(s, ChunkMarker, i, n - i);
        assert s[n] == '_';
      }
    }
    var r := DocOf(s);
    assert n < |r| ==> !OccursAt(s, ChunkMarker, n);
    assert |r| < n ==> !OccursAt(s, ChunkMarker, |r|);
    assert |r| < |s|;
    assert |r| == n;
    assert s[..n] == docid;
  }

  // ----- the chunk-id loop of build_dense_index -----

  /** One corpus record: its "id" and "contents" fields, absent or null fields read as "". */
  datatype CorpusDoc = CorpusDoc(id: string, contents: string)

  /** The chunks indexed for one record: none when its id or its contents are empty. */
  function DocChunks(d: CorpusDoc): seq<string> {
    if d.contents == "" || d.id == "" then [] else Chunks(d.contents, ChunkSize, ChunkOverlap)
  }

  /** Chunk ids `docid_chunk0`, ..., `docid_chunk<n - 1>`. */
  function IdsUpTo(docid: string, n: nat): (r: seq<string>)
    ensures |r| == n
  {
    if n == 0 then [] else IdsUpTo(docid, n - 1) + [ChunkId(docid, n - 1)]
  }

  lemma {:induction false} IdsUpToAt(docid: string, n: nat, i: nat)
    requires i < n
    ensures IdsUpTo(docid, n)[i] == ChunkId(docid, i)
  {
    if i < n - 1 {
      IdsUpToAt(docid, n - 1, i);
    }
  }

  /** The chunk texts of all records, in record order. */
  function AllTexts(docs: seq<CorpusDoc>): seq<string> {
    if docs == [] then [] else AllTexts(docs[..|docs| - 1]) + DocChunks(docs[|docs| - 1])
  }

  /** The chunk ids of all records, in record order. */
  function AllIds(docs: seq<CorpusDoc>): seq<string> {
    if docs == [] then []
    else
      var d := docs[|docs| - 1];
      AllIds(docs[..|docs| - 1]) + IdsUpTo(d.id, |DocChunks(d)|)
  }

  lemma {:induction false} AllStep(docs: seq<CorpusDoc>, k: nat)
    requires k < |docs|
    ensures AllTexts(docs[..k + 1]) == AllTexts(docs[..k]) + DocChunks(docs[k])
    ensures AllIds(docs[..k + 1]) == AllIds(docs[..k]) + IdsUpTo(docs[k].id, |DocChunks(docs[k])|)
  {
    assert docs[..k + 1][..k] == docs[..k];
  }

  /** The inner loop at build_dense_index.py:65-67: one record's chunks and their numbered ids. */
  method AppendChunks(texts: seq<string>, ids: seq<string>, docid: string, chunks: seq<string>)
    returns (texts': seq<string>, ids': seq<string>)
    ensures texts' == texts + chunks && ids' == ids + IdsUpTo(docid, |chunks|)
  {
    texts', ids' := texts, ids;
    for idx := 0 to |chunks|
      invariant texts' == texts + chunks[..idx]
      invariant ids' == ids + IdsUpTo(docid, idx)
    {
      assert chunks[..idx + 1] == chunks[..idx] + [chunks[idx]];
      assert (texts + chunks[..idx]) + [chunks[idx]] == texts + (chunks[..idx] + [chunks[idx]]);
      texts' := texts' + [chunks[idx]];
      ids' := ids' + [ChunkId(docid, idx)];
    }
    assert chunks[..|chunks|] == chunks;
  }

  /** The loop at build_dense_index.py:55-67 that lines up chunk texts and their ids. */
  method BuildChunkIds(docs: seq<CorpusDoc>) returns (texts: seq<string>, ids: seq<string>)
    ensures texts == AllTexts(docs) && ids == AllIds(docs)
  {
    texts, ids := [], [];
    for k := 0 to |docs|
      invariant texts == AllTexts(docs[..k]) && ids == AllIds(docs[..k])
    {
      var d := docs[k];
      AllStep(docs, k);
      if d.contents == "" || d.id == "" {
        assert DocChunks(d) == [];
        assert texts + [] == texts && ids + [] == ids;
        continue;
      }
      var chunks := ChunkText(d.contents, ChunkSize, ChunkOverlap);
      texts, ids := AppendChunks(texts, ids, d.id, chunks);
    }
    assert docs[..|docs|] == docs;
  }

  /**
   * Entry `j` of the id list is the id of chunk `idx` of record `k`, a record
   * with a non-empty id and non-empty contents, and entry `j` of the text list
   * is that chunk's text; cutting the id at "_chunk" gives back the record id
   * unless the record id itself contains "_chunk".
   */
  predicate NamesChunk(docs: seq<CorpusDoc>, j: int, k: int, idx: int) {
    0 <= j < |AllIds(docs)| && j < |AllTexts(docs)| &&
    0 <= k < |docs| && docs[k].id != "" && docs[k].contents != "" &&
    0 <= idx < |DocChunks(docs[k])| &&
    AllIds(docs)[j] == ChunkId(docs[k].id, idx) && AllTexts(docs)[j] == DocChunks(docs[k])[idx] &&
    (!Contains(docs[k].id, ChunkMarker) ==> DocOf(AllIds(docs)[j]) == docs[k].id)
  }

  lemma {:induction false} AllLengths(docs: seq<CorpusDoc>)
    ensures |AllTexts(docs)| == |AllIds(docs)|
    decreases |docs|
  {
    if docs != [] {
      AllLengths(docs[..|docs| - 1]);
    }
  }

  lemma {:induction false} NamesChunkExtend(docs: seq<CorpusDoc>, j: int, k: int, idx: int)
    requires docs != [] && NamesChunk(docs[..|docs| - 1], j, k, idx)
    ensures NamesChunk(docs, j, k, idx)
  {
    var p := docs[..|docs| - 1];
    assert docs[k] == p[k];
    assert AllIds(docs)[j] == AllIds(p)[j];
    assert AllTexts(docs)[j] == AllTexts(p)[j];
  }

  /**
   * Texts and ids line up one to one, and every id names the chunk of a
   * record that has a non-empty id and non-empty contents.
   */
  lemma {:induction false} AllIdsNameTheirChunk(docs: seq<CorpusDoc>, j: nat)
    requires j < |AllIds(docs)|
    ensures |AllTexts(docs)| == |AllIds(docs)|
    ensures exists k, idx :: NamesChunk(docs, j, k, idx)
    decreases |docs|
  {
    AllLengths(docs);
    var p, k := docs[..|docs| - 1], |docs| - 1;
    var d := docs[k];
    AllLengths(p);
    var m := |AllIds(p)|;
    if j < m {
      AllIdsNameTheirChunk(p, j);
      var k', idx :| NamesChunk(p, j, k', idx);
      NamesChunkExtend(docs, j, k', idx);
    } else {
      var idx := j - m;
      assert AllIds(docs)[j] == IdsUpTo(d.id, |DocChunks(d)|)[idx];
      IdsUpToAt(d.id, |DocChunks(d)|, idx);
      assert AllTexts(docs)[j] == DocChunks(d)[idx];
      if !Contains(d.id, ChunkMarker) {
        ChunkIdRoundTrip(d.id, idx);
      }
      assert NamesChunk(docs, j, k, idx);
    }
  }
}
