/**
  What the index build, `get_answer` and `_get_context` promise, proved about the
  specification functions of module `QA` (which its methods are proved to compute).

  Line numbers in comments refer to `project1.py`.
 */
module RetrievalProperties {
  import opened Wrappers
  import opened PyStr
  import opened QA

  // ----- The index -----

  lemma {:induction false} AllChunksAppend(a: seq<Document>, b: seq<Document>)
    ensures AllChunks(a + b) == AllChunks(a) + AllChunks(b)
    decreases |b|
  {
    if b == [] {
      assert a + b == a;
    } else {
      var front, d := b[..|b| - 1], b[|b| - 1];
      assert (a + b)[..|a + b| - 1] == a + front && (a + b)[|a + b| - 1] == d;
      AllChunksAppend(a, front);
      Shift(AllChunks(a), AllChunks(b), AllChunks(front), DocChunks(d), AllChunks(a) + AllChunks(b));
    }
  }

  lemma {:induction false} AllMetaAppend(a: seq<Document>, b: seq<Document>)
    ensures AllMeta(a + b) == AllMeta(a) + AllMeta(b)
    decreases |b|
  {
    if b == [] {
      assert a + b == a;
    } else {
      var front, d := b[..|b| - 1], b[|b| - 1];
      assert (a + b)[..|a + b| - 1] == a + front && (a + b)[|a + b| - 1] == d;
      AllMetaAppend(a, front);
      var rep := Repeat(MetaOf(d), |DocChunks(d)|);
      Shift(AllMeta(a), AllMeta(b), AllMeta(front), rep, AllMeta(a) + AllMeta(b));
    }
  }

  lemma AllChunksOne(d: Document)
    ensures AllChunks([d]) == DocChunks(d) && AllMeta([d]) == Repeat(MetaOf(d), |DocChunks(d)|)
  {
    assert [d][..0] == [];
    assert AllChunks([d]) == AllChunks([]) + DocChunks(d);
  }

  /** Chunk `j` of document `d` sits at position `Offset(docs, d) + j` of the index, and its
      metadata entry there is that document's `url` and title: the two lists stay aligned and
      keep document order (lines 24-33). */
  function Offset(docs: seq<Document>, d: nat): nat
    requires d <= |docs|
  {
    |AllChunks(docs[..d])|
  }

  lemma ChunkSource(docs: seq<Document>, d: nat, j: nat)
    requires d < |docs| && j < |DocChunks(docs[d])|
    ensures Offset(docs, d) + j < |AllChunks(docs)|
    ensures AllChunks(docs)[Offset(docs, d) + j] == DocChunks(docs[d])[j]
  {
    var x, y, z := AllChunks(docs[..d]), DocChunks(docs[d]), AllChunks(docs[d + 1..]);
    assert Offset(docs, d) == |x|;
    ChunksAround(docs, d);
    PickMiddle(x, y, z, j);
  }

  /** The index is the chunks before document `d`, then its own, then those after it. */
  lemma ChunksAround(docs: seq<Document>, d: nat)
    requires d < |docs|
    ensures AllChunks(docs) == (AllChunks(docs[..d]) + DocChunks(docs[d])) + AllChunks(docs[d + 1..])
  {
    var before, doc, after := docs[..d], docs[d], docs[d + 1..];
    SplitAt(docs, d);
    AllChunksAppend(before + [doc], after);
    AllChunksAppend(before, [doc]);
    AllChunksOne(doc);
  }

  lemma MetaAround(docs: seq<Document>, d: nat)
    requires d < |docs|
    ensures AllMeta(docs) == (AllMeta(docs[..d]) + Repeat(MetaOf(docs[d]), |DocChunks(docs[d])|)) + AllMeta(docs[d + 1..])
  {
    var before, doc, after := docs[..d], docs[d], docs[d + 1..];
    SplitAt(docs, d);
    AllMetaAppend(before + [doc], after);
    AllMetaAppend(before, [doc]);
    AllChunksOne(doc);
  }

  /** The chunks of document `d` end where those of document `d + 1` begin. */
  lemma OffsetStep(docs: seq<Document>, d: nat)
    requires d < |docs|
    ensures Offset(docs, d + 1) == Offset(docs, d) + |DocChunks(docs[d])|
  {
    SplitAt(docs, d);
    AllChunksAppend(docs[..d], [docs[d]]);
    AllChunksOne(docs[d]);
  }

  lemma MetaSource(docs: seq<Document>, d: nat, j: nat)
    requires d < |docs| && j < |DocChunks(docs[d])|
    ensures Offset(docs, d) + j < |AllMeta(docs)|
    ensures AllMeta(docs)[Offset(docs, d) + j] == ChunkMeta(docs[d].url, MetaTitle(docs[d].title))
  {
    var x, y, z := AllMeta(docs[..d]), Repeat(MetaOf(docs[d]), |DocChunks(docs[d])|), AllMeta(docs[d + 1..]);
    AllMetaLength(docs[..d]);
    assert Offset(docs, d) == |x|;
    MetaAround(docs, d);
    PickMiddle(x, y, z, j);
  }

  lemma SplitAt<T>(s: seq<T>, d: nat)
    requires d < |s|
    ensures s == (s[..d] + [s[d]]) + s[d + 1..] && s[..d + 1] == s[..d] + [s[d]]
  {
  }

  lemma PickMiddle<T>(x: seq<T>, y: seq<T>, z: seq<T>, j: nat)
    requires j < |y|
    ensures |x| + j < |(x + y) + z| && ((x + y) + z)[|x| + j] == y[j]
  {
  }

  /** When the build succeeds, every document that produced a chunk has its `title` key. The
      metadata records `None` for a `null` title and otherwise the same title the chunks carry
      (`doc['title']` against `doc.get('title', '')`). */
  lemma BuiltTitles(docs: seq<Document>, d: nat)
    requires !BuildFails(docs) && d < |docs| && DocChunks(docs[d]) != []
    ensures !docs[d].title.Absent?
    ensures MetaOf(docs[d]).title.None? <==> docs[d].title.Null?
    ensures MetaOf(docs[d]).title.Some? ==> MetaOf(docs[d]).title.value == TitleOr(docs[d])
  {
  }

  // ----- Ranked selection -----

  /** What `np.argsort(similarities)[::-1]` is: every chunk index exactly once, by score from
      highest to lowest. How tied scores are ordered is left open. */
  predicate IsRanking(order: seq<nat>, scores: seq<real>) {
    && |order| == |scores|
    && InRange(order, |scores|)
    && (forall i, j :: 0 <= i < j < |order| ==> order[i] != order[j])
    && (forall idx :: 0 <= idx < |scores| ==> idx in order)
    && Descending(order, scores)
  }

  predicate Descending(order: seq<nat>, scores: seq<real>)
    requires InRange(order, |scores|)
  {
    forall i, j :: 0 <= i < j < |order| ==> scores[order[i]] >= scores[order[j]]
  }

  /** `a` agrees with the start of `b`, element by element. */
  predicate Leads<T(==)>(a: seq<T>, b: seq<T>) {
    |a| <= |b| && forall k :: 0 <= k < |a| ==> a[k] == b[k]
  }

  lemma LeadsIsPrefix<T>(a: seq<T>, b: seq<T>)
    requires Leads(a, b)
    ensures IsPrefix(a, b)
  {
    assert b[..|a|] == a;
  }

  /** On a descending order, the qualifying indices are a prefix of it, and everything after
      that prefix is below the threshold. */
  lemma {:induction false} QualifyingPrefix(scores: seq<real>, order: seq<nat>, threshold: real)
    requires InRange(order, |scores|) && Descending(order, scores)
    ensures var q := Qualifying(scores, order, threshold);
      Leads(q, order) && forall k :: |q| <= k < |order| ==> scores[order[k]] < threshold
    decreases |order|
  {
    if order != [] {
      var n := |order|;
      if scores[order[n - 1]] >= threshold {
        LastQualifies(scores, order, threshold);
      } else {
        var front := order[..n - 1];
        assert InRange(front, |scores|) && Descending(front, scores);
        QualifyingPrefix(scores, front, threshold);
        LastFails(scores, order, threshold);
      }
    }
  }

  lemma LastQualifies(scores: seq<real>, order: seq<nat>, threshold: real)
    requires InRange(order, |scores|) && Descending(order, scores)
    requires order != [] && scores[order[|order| - 1]] >= threshold
    ensures Qualifying(scores, order, threshold) == order
  {
    var n := |order|;
    assert forall k :: 0 <= k < n ==> scores[order[k]] >= threshold by {
      assert forall k :: 0 <= k < n - 1 ==> scores[order[k]] >= scores[order[n - 1]];
    }
    AllQualify(scores, order, threshold);
  }

  lemma LastFails(scores: seq<real>, order: seq<nat>, threshold: real)
    requires InRange(order, |scores|) && order != [] && scores[order[|order| - 1]] < threshold
    requires var front := order[..|order| - 1]; var q := Qualifying(scores, front, threshold);
      Leads(q, front) && forall k :: |q| <= k < |front| ==> scores[front[k]] < threshold
    ensures var q := Qualifying(scores, order, threshold);
      Leads(q, order) && forall k :: |q| <= k < |order| ==> scores[order[k]] < threshold
  {
    var front := order[..|order| - 1];
    assert Qualifying(scores, order, threshold) == Qualifying(scores, front, threshold) + [];
  }

  /** When every index reaches the threshold, all of them qualify, in order. */
  lemma {:induction false} AllQualify(scores: seq<real>, order: seq<nat>, threshold: real)
    requires InRange(order, |scores|)
    requires forall k :: 0 <= k < |order| ==> scores[order[k]] >= threshold
    ensures Qualifying(scores, order, threshold) == order
    decreases |order|
  {
    if order != [] {
      var front := order[..|order| - 1];
      AllQualify(scores, front, threshold);
      assert order == front + [order[|order| - 1]];
    }
  }

  /** The selection is a prefix of the ranking, so its scores are non-increasing and no index
      appears twice. */
  lemma SelectionIsPrefix(scores: seq<real>, order: seq<nat>, topK: int, threshold: real)
    requires IsRanking(order, scores)
    ensures IsPrefix(Selection(scores, order, topK, threshold), order)
  {
    if topK >= 1 {
      QualifyingPrefix(scores, order, threshold);
    } else {
      var first := order[..Min(1, |order|)];
      assert InRange(first, |scores|) && Descending(first, scores);
      QualifyingPrefix(scores, first, threshold);
    }
    LeadsIsPrefix(Selection(scores, order, topK, threshold), order);
  }

  lemma SelectionDescending(scores: seq<real>, order: seq<nat>, topK: int, threshold: real)
    requires IsRanking(order, scores)
    ensures var sel := Selection(scores, order, topK, threshold);
      forall i, j :: 0 <= i < j < |sel| ==> scores[sel[i]] >= scores[sel[j]] && sel[i] != sel[j]
  {
    SelectionIsPrefix(scores, order, topK, threshold);
  }

  /** The number of results `get_answer` allows: `top_k`, or one when `top_k <= 0`. */
  function Cap(topK: int): nat {
    if topK >= 1 then topK else 1
  }

  /** Nothing that qualifies is left out: when fewer than the allowed number of results were
      returned, every other chunk scores below the threshold. */
  lemma SelectionComplete(scores: seq<real>, order: seq<nat>, topK: int, threshold: real, idx: nat)
    requires IsRanking(order, scores) && idx < |scores|
    requires |Selection(scores, order, topK, threshold)| < Cap(topK)
    requires idx !in Selection(scores, order, topK, threshold)
    ensures scores[idx] < threshold
  {
    var sel := Selection(scores, order, topK, threshold);
    SelectionIsPrefix(scores, order, topK, threshold);
    assert idx in order;
    var k :| 0 <= k < |order| && order[k] == idx;
    assert |sel| <= k;
    if topK >= 1 {
      QualifyingPrefix(scores, order, threshold);
    } else {
      FirstBelow(scores, order, threshold);
      if k > 0 {
        assert scores[order[0]] >= scores[order[k]];
      }
    }
  }

  lemma FirstBelow(scores: seq<real>, order: seq<nat>, threshold: real)
    requires InRange(order, |scores|) && order != []
    requires Qualifying(scores, order[..1], threshold) == []
    ensures scores[order[0]] < threshold
  {
    assert order[..1][..0] == [];
  }

  /** The sentinel is returned exactly when no chunk reaches the threshold (lines 144-151). */
  lemma SentinelIffNoneQualifies(scores: seq<real>, order: seq<nat>, topK: int, threshold: real)
    requires IsRanking(order, scores)
    ensures Selection(scores, order, topK, threshold) == [] <==>
            forall idx :: 0 <= idx < |scores| ==> scores[idx] < threshold
  {
    var sel := Selection(scores, order, topK, threshold);
    if sel == [] {
      forall idx | 0 <= idx < |scores|
        ensures scores[idx] < threshold
      {
        SelectionComplete(scores, order, topK, threshold, idx);
      }
    } else {
      assert scores[sel[0]] >= threshold;
    }
  }

  /** Raising the threshold can only drop results from the end of the list. */
  lemma ThresholdMonotone(scores: seq<real>, order: seq<nat>, topK: int, low: real, high: real)
    requires IsRanking(order, scores) && low <= high
    ensures IsPrefix(Selection(scores, order, topK, high), Selection(scores, order, topK, low))
  {
    var a, b := Selection(scores, order, topK, low), Selection(scores, order, topK, high);
    SelectionIsPrefix(scores, order, topK, low);
    SelectionIsPrefix(scores, order, topK, high);
    if |a| < |b| {
      assert b[|a|] == order[|a|];
      assert order[|a|] !in a;
      SelectionComplete(scores, order, topK, low, order[|a|]);
      assert false;
    }
    assert b == order[..|b|] && a[..|b|] == order[..|b|];
  }

  /** The sample run: scores `[0.1, 0.85, 0.3]` ranked `[1, 2, 0]`, with the default
      `top_k = 3` and `threshold = 0.2`, give chunks 1 then 2. */
  lemma SampleSelection()
    ensures Selection([0.1, 0.85, 0.3], [1, 2, 0], DefaultTopK, DefaultThreshold) == [1, 2]
  {
    var scores, order: seq<nat> := [0.1, 0.85, 0.3], [1, 2, 0];
    assert order[..2] == [1, 2] && [1, 2][..1] == [1] && [1][..0] == [];
    assert Qualifying(scores, [1], 0.2) == [1];
    assert Qualifying(scores, [1, 2], 0.2) == [1, 2];
    assert Qualifying(scores, order, 0.2) == Qualifying(scores, [1, 2], 0.2) + [];
  }

  /** With `top_k = 0` only the best chunk is kept. */
  lemma SampleSelectionTopZero()
    ensures Selection([0.1, 0.85, 0.3], [1, 2, 0], 0, DefaultThreshold) == [1]
  {
    var scores, order: seq<nat> := [0.1, 0.85, 0.3], [1, 2, 0];
    assert order[..Min(1, |order|)] == [1] && [1][..0] == [];
    assert Qualifying(scores, [1], 0.2) == [1];
  }

  /** With a threshold above every score there is no result. */
  lemma SampleSelectionHighThreshold()
    ensures Selection([0.1, 0.85, 0.3], [1, 2, 0], DefaultTopK, 0.9) == []
  {
    var scores, order: seq<nat> := [0.1, 0.85, 0.3], [1, 2, 0];
    assert order[..2] == [1, 2] && [1, 2][..1] == [1] && [1][..0] == [];
    assert Qualifying(scores, [1], 0.9) == [];
    assert Qualifying(scores, [1, 2], 0.9) == [];
  }

  // ----- The context window -----

  /** The neighbours in slice form: the window `[lo, hi)` with position `index` cut out. */
  lemma {:induction false} ExcludingSlices(chunks: seq<string>, index: int, lo: nat, hi: nat)
    requires lo <= hi <= |chunks|
    ensures Excluding(chunks, index, lo, hi)
            == if lo <= index < hi then chunks[lo..index] + chunks[index + 1..hi] else chunks[lo..hi]
    decreases hi - lo
  {
    if lo < hi {
      ExcludingSlices(chunks, index, lo, hi - 1);
      if index == hi - 1 {
        assert chunks[index + 1..hi] == [];
      } else if lo <= index < hi - 1 {
        SliceSnoc(chunks, index + 1, hi);
        Shift(chunks[lo..index], chunks[index + 1..hi], chunks[index + 1..hi - 1], [chunks[hi - 1]],
              chunks[lo..index] + chunks[index + 1..hi]);
      } else {
        SliceSnoc(chunks, lo, hi);
      }
    }
  }

  lemma SliceSnoc<T>(s: seq<T>, i: nat, j: nat)
    requires i < j <= |s|
    ensures s[i..j] == s[i..j - 1] + [s[j - 1]]
  {
  }

  /** For a chunk with a neighbour on each side, the default window is those two neighbours
      joined by a space (lines 178-187). */
  lemma InteriorContext(chunks: seq<string>, index: nat)
    requires 0 < index && index + 1 < |chunks|
    ensures ContextText(chunks, index, 1) == chunks[index - 1] + " " + chunks[index + 1]
  {
    ExcludingSlices(chunks, index, index - 1, index + 2);
    assert chunks[index - 1..index] == [chunks[index - 1]];
    assert chunks[index + 1..index + 2] == [chunks[index + 1]];
    assert Join([chunks[index - 1], chunks[index + 1]], " ")
           == chunks[index - 1] + " " + Join([chunks[index + 1]], " ");
  }

  /** At the ends of the index the window is cut short: the first chunk gets only its
      successor, the last only its predecessor. */
  lemma EdgeContext(chunks: seq<string>)
    requires |chunks| >= 2
    ensures ContextText(chunks, 0, 1) == chunks[1]
    ensures ContextText(chunks, |chunks| - 1, 1) == chunks[|chunks| - 2]
  {
    var n := |chunks|;
    ExcludingSlices(chunks, 0, 0, 2);
    assert chunks[0..0] + chunks[1..2] == [chunks[1]];
    ExcludingSlices(chunks, n - 1, n - 2, n);
    assert chunks[n - 2..n - 1] + chunks[n..n] == [chunks[n - 2]];
  }

  /** The chunk itself is never part of its own context: a window of 0 is empty. */
  lemma NoWindowNoContext(chunks: seq<string>, index: nat)
    requires index < |chunks|
    ensures ContextText(chunks, index, 0) == ""
  {
    ExcludingSlices(chunks, index, index, index + 1);
    assert chunks[index..index] + chunks[index + 1..index + 1] == [];
  }
}
