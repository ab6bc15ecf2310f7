/**
  `QASystem`: the index of chunks built from the crawled documents, the ranked
  selection of chunks for a question, and the context window around each result.

  The sentence embedder and the cosine similarity are not modelled: the similarity
  of every chunk is an input `scores`, and the order `np.argsort(scores)[::-1]` is an
  input `order` (see `IsRanking` in module `RetrievalProperties` for what numpy guarantees).

  Line numbers in comments refer to `project1.py`.
 */
module QA {
  import opened Wrappers
  import opened PyStr
  import opened Chunker

  /** The default `max_length` of `_create_chunks` (line 46). */
  const DefaultMaxLength := 150
  /** The defaults of `get_answer` (line 120) and `_get_context` (line 169). */
  const DefaultTopK := 3
  const DefaultThreshold: real := 0.2
  const DefaultWindow := 1

  /** The `title` member of a crawled page: the key may be missing, hold JSON `null`
      (what the crawler writes for a page without a heading), or hold a string. */
  datatype Title = Absent | Null | Given(text: string)

  /** A crawled page, as a JSON object with `url`, `title` and `content`. */
  datatype Document = Document(url: string, title: Title, content: string)

  /** The entry of `chunk_metadata` for one chunk; its title is `None` for a JSON `null`. */
  datatype ChunkMeta = ChunkMeta(url: string, title: Option<string>)

  /** Indexing `doc['title']` on a document without a `title` key raises `KeyError`. */
  datatype BuildError = KeyError(key: string)

  /** One entry of the list `get_answer` returns. */
  datatype Answer = Answer(answer: string, similarity: real, context: string, sourceUrl: string, sourceTitle: Option<string>)

  /** The single answer returned when nothing reaches the threshold (lines 144-151). */
  const Sentinel := Answer("I could not find a relevant answer to your question.", 0.0, "", "", Some(""))

  function Max(a: int, b: int): int { if a >= b then a else b }
  function Min(a: int, b: int): int { if a <= b then a else b }

  // ----- The index -----

  /** The title as line 59 uses it: `doc.get('title', '')` is `''` for a missing key and `None`
      for a `null`, and both give no prefix. */
  function TitleOr(d: Document): string {
    match d.title
    case Given(t) => t
    case _ => ""
  }

  /** The chunks of one document (line 25). */
  function DocChunks(d: Document): seq<string> {
    ChunkText(d.content, TitleOr(d), DefaultMaxLength)
  }

  /** `doc['title']` on a document that has the key: the string, or `None` for a `null`. */
  function MetaTitle(t: Title): Option<string> {
    match t
    case Given(x) => Some(x)
    case _ => None
  }

  function MetaOf(d: Document): ChunkMeta {
    ChunkMeta(d.url, MetaTitle(d.title))
  }

  function Repeat<T>(x: T, n: nat): (r: seq<T>)
    ensures |r| == n && forall k :: 0 <= k < n ==> r[k] == x
  {
    if n == 0 then [] else Repeat(x, n - 1) + [x]
  }

  /** `self.chunks` after the documents `docs` went through the build loop. */
  function AllChunks(docs: seq<Document>): seq<string>
    decreases |docs|
  {
    if docs == [] then [] else AllChunks(docs[..|docs| - 1]) + DocChunks(docs[|docs| - 1])
  }

  /** `self.chunk_metadata` after the same documents: one entry per chunk. */
  function AllMeta(docs: seq<Document>): seq<ChunkMeta>
    decreases |docs|
  {
    if docs == [] then []
    else
      var d := docs[|docs| - 1];
      AllMeta(docs[..|docs| - 1]) + Repeat(MetaOf(d), |DocChunks(d)|)
  }

  /** The build loop raises `KeyError('title')`: some document has no `title` key but yields
      chunks, so `doc['title']` is evaluated for it (line 32). A `null` title raises nothing. */
  predicate BuildFails(docs: seq<Document>) {
    exists i :: 0 <= i < |docs| && docs[i].title.Absent? && DocChunks(docs[i]) != []
  }

  // ----- Ranked selection -----

  predicate InRange(order: seq<nat>, n: nat) {
    forall k :: 0 <= k < |order| ==> order[k] < n
  }

  /** The indices of `order` whose score reaches the threshold, in the order visited. */
  function Qualifying(scores: seq<real>, order: seq<nat>, threshold: real): (r: seq<nat>)
    requires InRange(order, |scores|)
    ensures |r| <= |order| && InRange(r, |scores|)
    ensures forall k :: 0 <= k < |r| ==> scores[r[k]] >= threshold
    decreases |order|
  {
    if order == [] then []
    else
      var last := order[|order| - 1];
      Qualifying(scores, order[..|order| - 1], threshold) + (if scores[last] >= threshold then [last] else [])
  }

  /** The indices `get_answer` keeps (lines 137-142). With `top_k >= 1`, the first `top_k`
      qualifying indices. With `top_k <= 0` the test `len(top_indices) >= top_k` already holds
      after the first index is looked at, so only that one is considered. */
  function Selection(scores: seq<real>, order: seq<nat>, topK: int, threshold: real): (r: seq<nat>)
    requires InRange(order, |scores|)
    ensures InRange(r, |scores|)
    ensures forall k :: 0 <= k < |r| ==> scores[r[k]] >= threshold
    ensures |r| <= if topK >= 1 then topK else 1
  {
    if topK >= 1 then
      var q := Qualifying(scores, order, threshold);
      if |q| <= topK then q else q[..topK]
    else Qualifying(scores, order[..Min(1, |order|)], threshold)
  }

  predicate IsPrefix<T(==)>(a: seq<T>, b: seq<T>) {
    |a| <= |b| && b[..|a|] == a
  }

  /** Looking at more of `order` only adds qualifying indices at the end. */
  lemma {:induction false} QualifyingGrows(scores: seq<real>, order: seq<nat>, threshold: real, j: nat)
    requires InRange(order, |scores|) && j <= |order|
    ensures IsPrefix(Qualifying(scores, order[..j], threshold), Qualifying(scores, order, threshold))
    decreases |order| - j
  {
    if j < |order| {
      var n := |order|;
      var front := order[..n - 1];
      assert front[..j] == order[..j];
      QualifyingGrows(scores, front, threshold, j);
      var a, b := Qualifying(scores, order[..j], threshold), Qualifying(scores, front, threshold);
      var tail := if scores[order[n - 1]] >= threshold then [order[n - 1]] else [];
      assert Qualifying(scores, order, threshold) == b + tail;
      assert (b + tail)[..|a|] == b[..|a|];
    } else {
      assert order[..j] == order;
    }
  }

  /** Where the loop breaks, after looking at the first `j` indices. */
  lemma SelectionAtBreak(scores: seq<real>, order: seq<nat>, topK: int, threshold: real, j: nat)
    requires InRange(order, |scores|) && 1 <= j <= |order|
    requires |Qualifying(scores, order[..j], threshold)| >= topK
    requires j > 1 ==> |Qualifying(scores, order[..j - 1], threshold)| < topK
    ensures Qualifying(scores, order[..j], threshold) == Selection(scores, order, topK, threshold)
  {
    var before := order[..j - 1];
    assert order[..j][..j - 1] == before;
    var a := Qualifying(scores, order[..j], threshold);
    assert |a| <= |Qualifying(scores, before, threshold)| + 1;
    if topK >= 1 {
      QualifyingGrows(scores, order, threshold, j);
    } else {
      assert j == 1;
    }
  }

  /** Where the loop runs out of indices without breaking. */
  lemma SelectionAtEnd(scores: seq<real>, order: seq<nat>, topK: int, threshold: real)
    requires InRange(order, |scores|)
    requires order != [] ==> |Qualifying(scores, order, threshold)| < topK
    ensures Qualifying(scores, order, threshold) == Selection(scores, order, topK, threshold)
  {
    if order == [] {
      assert order[..Min(1, |order|)] == [];
    }
  }

  /** The selection loop of lines 137-142, with its early `break`. */
  method SelectTop(scores: seq<real>, order: seq<nat>, topK: int, threshold: real) returns (top: seq<nat>)
    requires InRange(order, |scores|)
    ensures top == Selection(scores, order, topK, threshold)
  {
    top := [];
    var i := 0;
    while i < |order|
      invariant i <= |order|
      invariant top == Qualifying(scores, order[..i], threshold)
      invariant i > 0 ==> |top| < topK
    {
      var idx := order[i];
      assert order[..i + 1][..i] == order[..i] && order[..i + 1][i] == idx;
      if scores[idx] >= threshold {
        top := top + [idx];
      }
      if |top| >= topK {
        SelectionAtBreak(scores, order, topK, threshold, i + 1);
        return;
      }
      i := i + 1;
    }
    assert order[..i] == order;
    SelectionAtEnd(scores, order, topK, threshold);
  }

  // ----- The context window -----

  /** `chunks[i]` for `i` in `range(lo, hi)` with `i != index`, in order. */
  function Excluding(chunks: seq<string>, index: int, lo: nat, hi: int): seq<string>
    requires hi <= lo || hi <= |chunks|
    decreases hi - lo
  {
    if hi <= lo then []
    else Excluding(chunks, index, lo, hi - 1) + (if hi - 1 != index then [chunks[hi - 1]] else [])
  }

  /** What `_get_context(index, window)` returns (lines 178-187). */
  function ContextText(chunks: seq<string>, index: int, window: int): string {
    var lo := Max(0, index - window);
    var hi := Min(|chunks|, index + window + 1);
    Join(Excluding(chunks, index, lo, hi), " ")
  }

  // ----- The system -----

  class QASystem {
    var documents: seq<Document>
    var chunks: seq<string>
    var chunkMetadata: seq<ChunkMeta>

    /** `chunks` and `chunk_metadata` are parallel lists. */
    predicate Valid()
      reads this
    {
      |chunks| == |chunkMetadata|
    }

    /** The object before the build loop: the documents loaded, no chunks yet (lines 18-22). */
    constructor (docs: seq<Document>)
      ensures documents == docs && chunks == [] && chunkMetadata == []
    {
      documents := docs;
      chunks := [];
      chunkMetadata := [];
    }

    /** One round of the build loop (lines 25-33): the document's chunks are appended, then
        one metadata entry per chunk. The first `doc['title']` raises when the document has no
        `title` key, after its chunks were appended but before any metadata was. */
    method AddDocument(doc: Document) returns (ok: bool)
      modifies this
      ensures ok <==> !(doc.title.Absent? && DocChunks(doc) != [])
      ensures old(Valid()) && ok ==> Valid()
      ensures documents == old(documents) && chunks == old(chunks) + DocChunks(doc)
      ensures ok ==> chunkMetadata == old(chunkMetadata) + Repeat(MetaOf(doc), |DocChunks(doc)|)
      ensures !ok ==> chunkMetadata == old(chunkMetadata)
    {
      var docChunks := CreateChunks(doc.content, TitleOr(doc), DefaultMaxLength);
      chunks := chunks + docChunks;
      ok := AddMetadata(doc, |docChunks|);
    }

    /** The inner loop of lines 29-33: one metadata entry for each of the `n` chunks of `doc`,
        until `doc['title']` raises on a document without a `title` key. */
    method AddMetadata(doc: Document, n: nat) returns (ok: bool)
      modifies this
      ensures ok <==> !(doc.title.Absent? && n > 0)
      ensures old(|chunkMetadata| + n == |chunks|) && ok ==> Valid()
      ensures documents == old(documents) && chunks == old(chunks)
      ensures ok ==> chunkMetadata == old(chunkMetadata) + Repeat(MetaOf(doc), n)
      ensures !ok ==> chunkMetadata == old(chunkMetadata)
    {
      for j := 0 to n
        invariant documents == old(documents) && chunks == old(chunks)
        invariant chunkMetadata == old(chunkMetadata) + Repeat(MetaOf(doc), j)
        invariant j > 0 ==> !doc.title.Absent?
      {
        if doc.title.Absent? {
          return false;
        }
        var title := if doc.title.Given? then Some(doc.title.text) else None;
        chunkMetadata := chunkMetadata + [ChunkMeta(doc.url, title)];
      }
      return n == 0 || !doc.title.Absent?;
    }

    /** `QASystem.__init__` from already loaded documents: the build loop of lines 24-33. */
    static method Build(docs: seq<Document>) returns (r: Result<QASystem, BuildError>)
      ensures r.Failure? <==> BuildFails(docs)
      ensures r.Failure? ==> r.error == KeyError("title")
      ensures r.Success? ==> fresh(r.value) && r.value.documents == docs && r.value.Valid()
      ensures r.Success? ==> r.value.chunks == AllChunks(docs) && r.value.chunkMetadata == AllMeta(docs)
    {
      var q := new QASystem(docs);
      assert docs[..0] == [];
      for i := 0 to |docs|
        invariant q.documents == docs
        invariant q.chunks == AllChunks(docs[..i]) && q.chunkMetadata == AllMeta(docs[..i])
        invariant !BuildFails(docs[..i])
      {
        assert docs[..i + 1][..i] == docs[..i] && docs[..i + 1][i] == docs[i];
        var ok := q.AddDocument(docs[i]);
        if !ok {
          assert docs[i].title.Absent? && DocChunks(docs[i]) != [];
          return Failure(KeyError("title"));
        }
        BuildStillGood(docs, i);
      }
      assert docs[..|docs|] == docs;
      AllMetaLength(docs);
      return Success(q);
    }

    /** `_get_context(index, window)`: the neighbouring chunks within `window` positions,
        without the chunk itself, joined by single spaces (lines 169-187). */
    method GetContext(index: int, window: int) returns (ctx: string)
      ensures ctx == ContextText(chunks, index, window)
    {
      var start := Max(0, index - window);
      var end := Min(|chunks|, index + window + 1);
      var contextChunks: seq<string> := [];
      var i := start;
      while i < end
        invariant start <= i && (i == start || i <= end)
        invariant contextChunks == Excluding(chunks, index, start, i)
      {
        if i != index {
          contextChunks := contextChunks + [chunks[i]];
        }
        i := i + 1;
      }
      ctx := Join(contextChunks, " ");
    }

    /** `get_answer` given the similarity of every chunk and the visiting order: each selected
        chunk with its score, context and source, or the single sentinel answer when nothing
        qualifies (lines 137-167). */
    method GetAnswer(scores: seq<real>, order: seq<nat>, topK: int, threshold: real) returns (answers: seq<Answer>)
      requires Valid() && |scores| == |chunks| && InRange(order, |scores|)
      ensures var sel := Selection(scores, order, topK, threshold);
        sel == [] ==> answers == [Sentinel]
      ensures var sel := Selection(scores, order, topK, threshold);
        sel != [] ==> |answers| == |sel| && forall k :: 0 <= k < |sel| ==>
          answers[k] == Answer(chunks[sel[k]], scores[sel[k]], ContextText(chunks, sel[k], DefaultWindow),
                               chunkMetadata[sel[k]].url, chunkMetadata[sel[k]].title)
    {
      var top := SelectTop(scores, order, topK, threshold);
      if top == [] {
        return [Sentinel];
      }
      answers := [];
      for k := 0 to |top|
        invariant |answers| == k
        invariant forall m :: 0 <= m < k ==>
          answers[m] == Answer(chunks[top[m]], scores[top[m]], ContextText(chunks, top[m], DefaultWindow),
                               chunkMetadata[top[m]].url, chunkMetadata[top[m]].title)
      {
        var idx := top[k];
        var context := GetContext(idx, DefaultWindow);
        answers := answers + [Answer(chunks[idx], scores[idx], context, chunkMetadata[idx].url, chunkMetadata[idx].title)];
      }
    }
  }

  /** A document that builds keeps the prefix free of the `KeyError`. */
  lemma BuildStillGood(docs: seq<Document>, i: nat)
    requires i < |docs| && !BuildFails(docs[..i])
    requires !(docs[i].title.Absent? && DocChunks(docs[i]) != [])
    ensures !BuildFails(docs[..i + 1])
  {
    forall k | 0 <= k < i
      ensures !(docs[k].title.Absent? && DocChunks(docs[k]) != [])
    {
      assert docs[..i][k] == docs[k];
    }
  }

  lemma {:induction false} AllMetaLength(docs: seq<Document>)
    ensures |AllMeta(docs)| == |AllChunks(docs)|
    decreases |docs|
  {
    if docs != [] {
      AllMetaLength(docs[..|docs| - 1]);
    }
  }
}
