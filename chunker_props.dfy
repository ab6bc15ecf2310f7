/**
  What `_create_chunks` promises, proved about the specification functions of
  module `Chunker` (which its methods are proved to compute).

  Line numbers in comments refer to `project1.py`.
 */
module ChunkerProperties {
  import opened PyStr
  import opened Headers
  import opened Chunker

  // ----- Paragraph order -----

  /** The paragraphs a block was made from. */
  function Members(b: Block): seq<string> {
    match b
    case Code(t) => [t]
    case Listing(t) => [t]
    case Packed(ps, _) => ps
  }

  /** The paragraphs of a list of blocks, in order. */
  function Paras(bs: seq<Block>): seq<string>
    decreases |bs|
  {
    if bs == [] then [] else Members(bs[0]) + Paras(bs[1..])
  }

  lemma {:induction false} ParasAppend(a: seq<Block>, b: seq<Block>)
    ensures Paras(a + b) == Paras(a) + Paras(b)
    decreases |a|
  {
    if a == [] {
      assert a + b == b;
    } else {
      assert (a + b)[1..] == a[1..] + b;
      ParasAppend(a[1..], b);
    }
  }

  lemma ParasClose(pend: seq<string>, lead: bool)
    ensures Paras(Close(pend, lead)) == pend
  {
    if pend != [] {
      assert Paras([Packed(pend, lead)]) == pend + Paras([]);
    }
  }

  /** The texts of classified paragraphs. */
  function Texts(ps: seq<Para>): (r: seq<string>)
    ensures |r| == |ps|
    decreases |ps|
  {
    if ps == [] then [] else [ps[0].text] + Texts(ps[1..])
  }

  /** Classifying paragraphs keeps their texts, in order. */
  lemma {:induction false} TextsClassify(ps: seq<string>)
    ensures Texts(Classify(ps)) == ps
    decreases |ps|
  {
    if ps != [] {
      TextsClassify(ps[1..]);
      assert ps == [ps[0]] + ps[1..];
    }
  }

  /** The packing loop neither drops, repeats nor reorders paragraphs: read in order, its
      blocks hold the pending buffer followed by the remaining paragraphs. */
  lemma {:induction false} BlocksKeepParagraphs(paras: seq<Para>, pend: seq<string>, lead: bool, maxLen: int)
    ensures Paras(Blocks(paras, pend, lead, maxLen)) == pend + Texts(paras)
    decreases |paras|
  {
    if paras == [] {
      ParasClose(pend, lead);
      assert pend + Texts(paras) == pend;
    } else {
      var p, rest := paras[0].text, paras[1..];
      assert Texts(paras) == [p] + Texts(rest);
      if paras[0].kind != Prose {
        BlocksKeepParagraphs(rest, [], false, maxLen);
        KeepSpecial(paras, pend, lead, maxLen);
      } else if |BufText(pend, lead)| + |p| <= maxLen {
        BlocksKeepParagraphs(rest, pend + [p], pend == [] || lead, maxLen);
        MoveHead(pend, Texts(paras));
      } else {
        BlocksKeepParagraphs(rest, [p], false, maxLen);
        KeepFlush(paras, pend, lead, maxLen);
      }
    }
  }

  /** Moving the head of `whole` onto the end of `done`. */
  lemma MoveHead<T>(done: seq<T>, whole: seq<T>)
    requires whole != []
    ensures (done + [whole[0]]) + whole[1..] == done + whole
  {
    assert whole == [whole[0]] + whole[1..];
  }

  /** `x` is `done` followed by the head of `whole`, then the rest of `whole`. */
  lemma Regroup<T>(x: seq<T>, y: seq<T>, later: seq<T>, done: seq<T>, whole: seq<T>)
    requires whole != [] && x == y + later && y == done + [whole[0]] && later == whole[1..]
    ensures x == done + whole
  {
    MoveHead(done, whole);
  }

  lemma KeepSpecial(paras: seq<Para>, pend: seq<string>, lead: bool, maxLen: int)
    requires paras != [] && paras[0].kind != Prose
    requires Texts(paras) == [paras[0].text] + Texts(paras[1..])
    requires Paras(Blocks(paras[1..], [], false, maxLen)) == [] + Texts(paras[1..])
    ensures Paras(Blocks(paras, pend, lead, maxLen)) == pend + Texts(paras)
  {
    var p, rest := paras[0].text, paras[1..];
    var b := if paras[0].kind == CodeKind then Code(p) else Listing(p);
    var c, later := Close(pend, lead), Blocks(rest, [], false, maxLen);
    assert Blocks(paras, pend, lead, maxLen) == (c + [b]) + later;
    assert Paras(c + [b]) == pend + [p] by {
      ParasClose(pend, lead);
      ParasAppend(c, [b]);
      assert Paras([b]) == [p] + Paras([]);
    }
    assert Paras(later) == Texts(rest) by {
      assert [] + Texts(rest) == Texts(rest);
    }
    ParasAppend(c + [b], later);
    Regroup(Paras(Blocks(paras, pend, lead, maxLen)), Paras(c + [b]), Paras(later), pend, Texts(paras));
  }

  lemma KeepFlush(paras: seq<Para>, pend: seq<string>, lead: bool, maxLen: int)
    requires paras != [] && paras[0].kind == Prose && |BufText(pend, lead)| + |paras[0].text| > maxLen
    requires Texts(paras) == [paras[0].text] + Texts(paras[1..])
    requires Paras(Blocks(paras[1..], [paras[0].text], false, maxLen)) == [paras[0].text] + Texts(paras[1..])
    ensures Paras(Blocks(paras, pend, lead, maxLen)) == pend + Texts(paras)
  {
    var later := Blocks(paras[1..], [paras[0].text], false, maxLen);
    assert Blocks(paras, pend, lead, maxLen) == Close(pend, lead) + later;
    ParasClose(pend, lead);
    ParasAppend(Close(pend, lead), later);
  }

  /** A section's chunks hold exactly that section's paragraphs, in order. */
  lemma SectionKeepsParagraphs(section: string, maxLen: int)
    ensures Paras(SectionBlocks(section, maxLen)) == Paragraphs(section)
  {
    BlocksKeepParagraphs(Classify(Paragraphs(section)), [], false, maxLen);
    TextsClassify(Paragraphs(section));
    assert [] + Paragraphs(section) == Paragraphs(section);
  }

  /** Sections are packed independently: the buffer never carries a paragraph across a
      section boundary (lines 85, 115-116). */
  lemma {:induction false} SectionsIndependent(a: seq<string>, b: seq<string>, maxLen: int)
    ensures SectionsBlocks(a + b, maxLen) == SectionsBlocks(a, maxLen) + SectionsBlocks(b, maxLen)
    decreases |a|
  {
    if a == [] {
      assert a + b == b;
    } else {
      assert (a + b)[0] == a[0] && (a + b)[1..] == a[1..] + b;
      SectionsIndependent(a[1..], b, maxLen);
    }
  }

  // ----- Classification and the length budget -----

  /** A paragraph for the buffer: neither code nor a list. */
  predicate Regular(p: string) {
    KindOf(p) == Prose
  }

  predicate AllRegular(ps: seq<string>) {
    forall k :: 0 <= k < |ps| ==> Regular(ps[k])
  }

  /** Classified paragraphs as the paragraph loop sees them: non-empty, stripped, and of the
      kind the tests of lines 88 and 98 give them. */
  predicate Sound(paras: seq<Para>) {
    forall k :: 0 <= k < |paras| ==>
      paras[k].text != [] && IsStripped(paras[k].text) && paras[k].kind == KindOf(paras[k].text)
  }

  lemma ClassifySound(ps: seq<string>)
    requires AllStripped(ps)
    ensures Sound(Classify(ps))
  {
    forall k | 0 <= k < |ps|
      ensures Classify(ps)[k] == Para(ps[k], KindOf(ps[k]))
    {
      ClassifyAt(ps, k);
    }
  }

  /** A buffer opened by the merge branch, or holding two or more paragraphs, is at most one
      character over the budget. */
  predicate BufferFits(pend: seq<string>, lead: bool, maxLen: int) {
    lead || |pend| >= 2 ==> |BufText(pend, lead)| <= maxLen + 1
  }

  /** What every block of the packing loop satisfies: a code block passes the code test, a
      list block fails it and passes the list test, a packed block holds regular paragraphs. */
  predicate WellFormed(b: Block, maxLen: int) {
    match b
    case Code(t) => t != [] && IsStripped(t) && KindOf(t) == CodeKind
    case Listing(t) => t != [] && IsStripped(t) && KindOf(t) == ListKind
    case Packed(ps, lead) =>
      && ps != [] && AllStripped(ps)
      && AllRegular(ps)
      && BufferFits(ps, lead, maxLen)
  }

  predicate AllWellFormed(bs: seq<Block>, maxLen: int) {
    forall k :: 0 <= k < |bs| ==> WellFormed(bs[k], maxLen)
  }

  lemma AllWellFormedAppend(a: seq<Block>, b: seq<Block>, maxLen: int)
    requires AllWellFormed(a, maxLen) && AllWellFormed(b, maxLen)
    ensures AllWellFormed(a + b, maxLen)
  {
    forall k | 0 <= k < |a + b|
      ensures WellFormed((a + b)[k], maxLen)
    {
      if k < |a| {
        assert (a + b)[k] == a[k];
      } else {
        assert (a + b)[k] == b[k - |a|];
      }
    }
  }

  /** The merge branch keeps the buffer within one character over the budget, and the
      buffer keeps holding regular stripped paragraphs. */
  lemma MergeKeeps(pend: seq<string>, lead: bool, p: string, maxLen: int)
    requires AllStripped(pend) && AllRegular(pend)
    requires p != [] && IsStripped(p) && Regular(p)
    requires |BufText(pend, lead)| + |p| <= maxLen
    ensures BufferFits(pend + [p], pend == [] || lead, maxLen)
    ensures AllStripped(pend + [p]) && AllRegular(pend + [p])
  {
    BufTextGrow(pend, lead, p);
    AllStrippedSnoc(pend, p);
    assert forall k :: 0 <= k < |pend| ==> (pend + [p])[k] == pend[k];
  }

  lemma SoundTail(paras: seq<Para>)
    requires paras != [] && Sound(paras)
    ensures Sound(paras[1..])
  {
    forall k | 0 <= k < |paras| - 1
      ensures paras[1..][k] == paras[k + 1]
    {
    }
  }

  /** Every block the packing loop emits is well formed: code and list blocks hold one
      stripped paragraph of their kind, packed blocks hold regular stripped paragraphs, and a
      packed buffer that merged something respects the budget. */
  lemma {:induction false} BlocksWellFormed(paras: seq<Para>, pend: seq<string>, lead: bool, maxLen: int)
    requires Sound(paras) && AllStripped(pend)
    requires AllRegular(pend)
    requires BufferFits(pend, lead, maxLen)
    ensures AllWellFormed(Blocks(paras, pend, lead, maxLen), maxLen)
    decreases |paras|
  {
    assert AllWellFormed(Close(pend, lead), maxLen);
    if paras != [] {
      var p, rest := paras[0].text, paras[1..];
      assert p != [] && IsStripped(p) && paras[0].kind == KindOf(p);
      SoundTail(paras);
      if paras[0].kind != Prose {
        SpecialWellFormed(paras, pend, lead, maxLen);
      } else if |BufText(pend, lead)| + |p| <= maxLen {
        MergeKeeps(pend, lead, p, maxLen);
        BlocksWellFormed(rest, pend + [p], pend == [] || lead, maxLen);
      } else {
        var later := Blocks(rest, [p], false, maxLen);
        assert Blocks(paras, pend, lead, maxLen) == Close(pend, lead) + later;
        BlocksWellFormed(rest, [p], false, maxLen);
        AllWellFormedAppend(Close(pend, lead), later, maxLen);
      }
    }
  }

  /** The code or list step of `BlocksWellFormed`. */
  lemma {:induction false} SpecialWellFormed(paras: seq<Para>, pend: seq<string>, lead: bool, maxLen: int)
    requires paras != [] && paras[0].kind != Prose && Sound(paras) && Sound(paras[1..])
    requires AllWellFormed(Close(pend, lead), maxLen)
    ensures AllWellFormed(Blocks(paras, pend, lead, maxLen), maxLen)
    decreases |paras|, 0
  {
    var p := paras[0].text;
    var b := if paras[0].kind == CodeKind then Code(p) else Listing(p);
    var later := Blocks(paras[1..], [], false, maxLen);
    assert Blocks(paras, pend, lead, maxLen) == (Close(pend, lead) + [b]) + later;
    BlocksWellFormed(paras[1..], [], false, maxLen);
    assert WellFormed(b, maxLen);
    AllWellFormedAppend(Close(pend, lead), [b], maxLen);
    AllWellFormedAppend(Close(pend, lead) + [b], later, maxLen);
  }

  lemma SectionWellFormed(section: string, maxLen: int)
    ensures AllWellFormed(SectionBlocks(section, maxLen), maxLen)
  {
    ClassifySound(Paragraphs(section));
    BlocksWellFormed(Classify(Paragraphs(section)), [], false, maxLen);
  }

  lemma {:induction false} SectionsWellFormed(sections: seq<string>, maxLen: int)
    ensures AllWellFormed(SectionsBlocks(sections, maxLen), maxLen)
    decreases |sections|
  {
    if sections != [] {
      if sections[0] != "" {
        SectionWellFormed(sections[0], maxLen);
      }
      SectionsWellFormed(sections[1..], maxLen);
      AllWellFormedAppend(if sections[0] == "" then [] else SectionBlocks(sections[0], maxLen),
                          SectionsBlocks(sections[1..], maxLen), maxLen);
    }
  }

  /** The length budget of lines 107-113 on an emitted packed chunk: a buffer that was opened
      by the merge branch has a stripped body of at most `maxLen` characters, one holding two
      or more paragraphs at most `maxLen + 1`; a single paragraph that never merged is emitted
      whole, however long. */
  lemma PackedWithinBudget(b: Block, maxLen: int)
    requires WellFormed(b, maxLen) && b.Packed?
    ensures b.lead ==> |Body(b)| <= maxLen
    ensures |b.paras| >= 2 ==> |Body(b)| <= maxLen + 1
    ensures |b.paras| == 1 ==> Body(b) == b.paras[0]
  {
  }

  // ----- Greedy packing -----

  /** With a non-empty buffer, the first block is that buffer, grown or not. */
  lemma {:induction false} FirstBlock(paras: seq<Para>, pend: seq<string>, lead: bool, maxLen: int)
    requires pend != []
    ensures var bs := Blocks(paras, pend, lead, maxLen);
      bs != [] && bs[0].Packed? && bs[0].lead == lead && bs[0].paras != [] && bs[0].paras[0] == pend[0]
    decreases |paras|
  {
    if paras != [] && paras[0].kind == Prose && |BufText(pend, lead)| + |paras[0].text| <= maxLen {
      FirstBlock(paras[1..], pend + [paras[0].text], pend == [] || lead, maxLen);
    }
  }

  /** Two neighbouring packed blocks, the second starting a fresh buffer with a paragraph that
      did not fit in the first. */
  predicate GreedyPair(a: Block, b: Block, maxLen: int)
    requires a.Packed? && b.Packed?
  {
    b.paras != [] && !b.lead && |BufText(a.paras, a.lead)| + |b.paras[0]| > maxLen
  }

  /** Packing is greedy: a packed block is followed by another packed block only when the next
      paragraph did not fit in the first one's buffer, and that block starts a fresh buffer. */
  lemma {:induction false} PackedIsGreedy(paras: seq<Para>, pend: seq<string>, lead: bool, maxLen: int, k: nat)
    requires k + 1 < |Blocks(paras, pend, lead, maxLen)|
    requires Blocks(paras, pend, lead, maxLen)[k].Packed? && Blocks(paras, pend, lead, maxLen)[k + 1].Packed?
    ensures GreedyPair(Blocks(paras, pend, lead, maxLen)[k], Blocks(paras, pend, lead, maxLen)[k + 1], maxLen)
    decreases |paras|
  {
    var p, rest := paras[0].text, paras[1..];
    var c := Close(pend, lead);
    if paras[0].kind != Prose {
      var j := GreedySpecialShift(paras, pend, lead, maxLen, k);
      PackedIsGreedy(rest, [], false, maxLen, j);
    } else if |BufText(pend, lead)| + |p| <= maxLen {
      PackedIsGreedy(rest, pend + [p], pend == [] || lead, maxLen, k);
    } else if c == [] || k > 0 {
      var j := GreedyFlushShift(paras, pend, lead, maxLen, k);
      PackedIsGreedy(rest, [p], false, maxLen, j);
    } else {
      GreedyAtFlush(paras, pend, lead, maxLen);
    }
  }

  /** After a code or list paragraph, a pair of packed blocks lies in the blocks that follow it. */
  lemma GreedySpecialShift(paras: seq<Para>, pend: seq<string>, lead: bool, maxLen: int, k: nat)
    returns (j: nat)
    requires paras != [] && paras[0].kind != Prose
    requires k + 1 < |Blocks(paras, pend, lead, maxLen)|
    requires Blocks(paras, pend, lead, maxLen)[k].Packed? && Blocks(paras, pend, lead, maxLen)[k + 1].Packed?
    ensures var later := Blocks(paras[1..], [], false, maxLen);
      && j + 1 < |later|
      && Blocks(paras, pend, lead, maxLen)[k] == later[j]
      && Blocks(paras, pend, lead, maxLen)[k + 1] == later[j + 1]
  {
    var p := paras[0].text;
    var bs := Blocks(paras, pend, lead, maxLen);
    var b := if paras[0].kind == CodeKind then Code(p) else Listing(p);
    var c, later := Close(pend, lead), Blocks(paras[1..], [], false, maxLen);
    var front := c + [b];
    assert bs == front + later;
    assert front[|c|] == b && !b.Packed?;
    // the code or list block sits at `|c|`, and `c` holds at most one block, so a pair of
    // packed neighbours lies after it
    IndexAfter(bs, front, later, |c|);
    j := k - |front|;
    IndexAfter(bs, front, later, k);
    IndexAfter(bs, front, later, k + 1);
  }

  /** Indexing past the front part of a concatenation. */
  lemma IndexAfter<T>(bs: seq<T>, front: seq<T>, later: seq<T>, k: nat)
    requires bs == front + later && k < |bs|
    ensures k < |front| ==> bs[k] == front[k]
    ensures k >= |front| ==> bs[k] == later[k - |front|]
  {
  }

  /** After a flush, a pair of packed blocks not straddling it lies in the blocks that follow. */
  lemma GreedyFlushShift(paras: seq<Para>, pend: seq<string>, lead: bool, maxLen: int, k: nat)
    returns (j: nat)
    requires paras != [] && paras[0].kind == Prose && |BufText(pend, lead)| + |paras[0].text| > maxLen
    requires pend == [] || k > 0
    requires k + 1 < |Blocks(paras, pend, lead, maxLen)|
    ensures var later := Blocks(paras[1..], [paras[0].text], false, maxLen);
      && j + 1 < |later|
      && Blocks(paras, pend, lead, maxLen)[k] == later[j]
      && Blocks(paras, pend, lead, maxLen)[k + 1] == later[j + 1]
  {
    var bs := Blocks(paras, pend, lead, maxLen);
    var c, later := Close(pend, lead), Blocks(paras[1..], [paras[0].text], false, maxLen);
    assert bs == c + later;
    j := k - |c|;
  }

  /** The pair straddling a flush: the flushed buffer, then the buffer that the paragraph which
      did not fit opens. */
  lemma GreedyAtFlush(paras: seq<Para>, pend: seq<string>, lead: bool, maxLen: int)
    requires paras != [] && paras[0].kind == Prose && |BufText(pend, lead)| + |paras[0].text| > maxLen
    requires pend != []
    ensures var bs := Blocks(paras, pend, lead, maxLen);
      |bs| >= 2 && bs[0] == Packed(pend, lead) && bs[1].Packed? && GreedyPair(bs[0], bs[1], maxLen)
  {
    var later := Blocks(paras[1..], [paras[0].text], false, maxLen);
    assert Blocks(paras, pend, lead, maxLen) == [Packed(pend, lead)] + later;
    FirstBlock(paras[1..], [paras[0].text], false, maxLen);
  }

  /** The greedy property for the chunks of one section. */
  lemma SectionIsGreedy(section: string, maxLen: int, k: nat)
    requires k + 1 < |SectionBlocks(section, maxLen)|
    requires SectionBlocks(section, maxLen)[k].Packed? && SectionBlocks(section, maxLen)[k + 1].Packed?
    ensures GreedyPair(SectionBlocks(section, maxLen)[k], SectionBlocks(section, maxLen)[k + 1], maxLen)
  {
    PackedIsGreedy(Classify(Paragraphs(section)), [], false, maxLen, k);
  }

  // ----- The code test -----

  /** The indentation half of the code test can never hold: a stripped line does not start
      with a space or a tab. */
  lemma IndentTestIsDead(line: string)
    ensures !IndentMarked(Strip(line))
  {
    var s := Strip(line);
    assert s == [] || !IsSpace(s[0]);
    NoSpaceHead(s, "    ");
    NoSpaceHead(s, "\t");
  }

  lemma NoSpaceHead(s: string, prefix: string)
    requires s == [] || !IsSpace(s[0])
    requires prefix != [] && IsSpace(prefix[0])
    ensures !StartsWith(s, prefix)
  {
  }

  lemma {:induction false} NoneIndented(lines: seq<string>)
    ensures !AnyIndented(lines)
    decreases |lines|
  {
    if lines != [] {
      IndentTestIsDead(lines[0]);
      NoneIndented(lines[1..]);
    }
  }

  /** So a paragraph counts as code exactly when it contains a ``` fence. */
  lemma CodeMeansFence(para: string)
    ensures IsCode(para) <==> Contains(para, "```")
  {
    NoneIndented(Lines(para));
  }

  // ----- The title prefix -----

  lemma BodyStripped(b: Block, maxLen: int)
    requires WellFormed(b, maxLen)
    ensures Body(b) != [] && IsStripped(Body(b))
  {
    if b.Packed? {
      JoinStripped(b.paras, " ");
    }
  }

  /** Every chunk is the prefix `title + "\n\n"` (nothing when the title is empty) followed by
      a non-empty stripped body (lines 59, 91, 94, 101, 104, 112, 116). */
  lemma ChunksCarryTitle(text: string, title: string, maxLen: int, k: nat)
    requires k < |ChunkText(text, title, maxLen)|
    ensures var c, ctx := ChunkText(text, title, maxLen)[k], Context(title);
      StartsWith(c, ctx) && c[|ctx|..] != [] && IsStripped(c[|ctx|..])
    ensures title != "" ==> StartsWith(ChunkText(text, title, maxLen)[k], title + "\n\n")
    ensures title == "" ==> ChunkText(text, title, maxLen)[k] != [] && IsStripped(ChunkText(text, title, maxLen)[k])
  {
    var ctx, bs := Context(title), SectionsBlocks(Sections(text), maxLen);
    SectionsWellFormed(Sections(text), maxLen);
    RenderAt(ctx, bs, k);
    BodyStripped(bs[k], maxLen);
    var c := ChunkText(text, title, maxLen)[k];
    assert c == ctx + Body(bs[k]);
    assert c[..|ctx|] == ctx && c[|ctx|..] == Body(bs[k]);
  }

  /** The title changes nothing but the prefix: the titled chunks are the untitled ones, each
      with `Context(title)` in front. */
  lemma TitleOnlyPrefixes(text: string, title: string, maxLen: int)
    ensures |ChunkText(text, title, maxLen)| == |ChunkText(text, "", maxLen)|
    ensures forall k :: 0 <= k < |ChunkText(text, title, maxLen)| ==>
      ChunkText(text, title, maxLen)[k] == Context(title) + ChunkText(text, "", maxLen)[k]
  {
    var bs := SectionsBlocks(Sections(text), maxLen);
    forall k | 0 <= k < |bs|
      ensures ChunkText(text, title, maxLen)[k] == Context(title) + ChunkText(text, "", maxLen)[k]
    {
      RenderAt(Context(title), bs, k);
      RenderAt("", bs, k);
      assert "" + Body(bs[k]) == Body(bs[k]);
    }
  }

  // ----- Blank text -----

  /** Text that is empty or only whitespace gives no chunks: its one section, if any, strips to
      the empty string and is skipped (lines 75-80). */
  lemma BlankTextNoChunks(text: string, title: string, maxLen: int)
    requires AllSpace(text)
    ensures ChunkText(text, title, maxLen) == []
  {
    NoHeaderInBlankText(text, 0);
    assert HeaderSpans(text) == [];
    if text != [] {
      assert text[0..] == text;
      assert Pieces(text, [], 0) == [text];
      assert Strip(text) == [];
      assert StripAll([text]) == [Strip(text)] + StripAll([]);
      assert Sections(text) == [""];
      assert SectionsBlocks([""], maxLen) == [] + SectionsBlocks([], maxLen);
    }
  }

  // ----- Coverage -----

  /** The section pieces, concatenated, are the text from `from` on. */
  lemma {:induction false} PiecesCover(text: string, spans: seq<Span>, from: nat)
    requires from <= |text| && Ordered(spans, from, |text|)
    ensures Concat(Pieces(text, spans, from)) == text[from..]
    decreases |spans|
  {
    if spans == [] {
      if from < |text| {
        assert Concat([text[from..]]) == text[from..] + Concat([]);
      }
    } else {
      OrderedTail(spans, from, |text|);
      PiecesCover(text, spans[1..], spans[0].end);
      PiecesCoverStep(text, spans, from);
    }
  }

  lemma PiecesCoverStep(text: string, spans: seq<Span>, from: nat)
    requires from <= |text| && Ordered(spans, from, |text|) && spans != []
    requires spans[0].end <= |text| && Ordered(spans[1..], spans[0].end, |text|)
    requires Concat(Pieces(text, spans[1..], spans[0].end)) == text[spans[0].end..]
    ensures Concat(Pieces(text, spans, from)) == text[from..]
  {
    var m := spans[0];
    var head := (if from < m.start then [text[from..m.start]] else []) + [text[m.start..m.end]];
    var later := Pieces(text, spans[1..], m.end);
    calc {
      Concat(Pieces(text, spans, from));
      { assert Pieces(text, spans, from) == head + later; }
      Concat(head + later);
      { ConcatAppend(head, later); }
      Concat(head) + Concat(later);
      { HeadCover(text, from, m.start, m.end); }
      text[from..m.end] + text[m.end..];
      text[from..];
    }
  }

  /** The gap before a header and the header line, concatenated, are the text up to the
      header's end. */
  lemma HeadCover(text: string, from: nat, start: nat, end: nat)
    requires from <= start < end <= |text|
    ensures Concat((if from < start then [text[from..start]] else []) + [text[start..end]]) == text[from..end]
  {
    assert Concat([text[start..end]]) == text[start..end] + Concat([]);
    if from < start {
      ConcatAppend([text[from..start]], [text[start..end]]);
      assert Concat([text[from..start]]) == text[from..start] + Concat([]);
      assert text[from..end] == text[from..start] + text[start..end];
    } else {
      assert [] + [text[start..end]] == [text[start..end]];
    }
  }

  lemma {:induction false} ConcatAppend(a: seq<string>, b: seq<string>)
    ensures Concat(a + b) == Concat(a) + Concat(b)
    decreases |a|
  {
    if a == [] {
      assert a + b == b;
    } else {
      assert (a + b)[0] == a[0] && (a + b)[1..] == a[1..] + b;
      ConcatAppend(a[1..], b);
    }
  }

  lemma {:induction false} StripAllNonSpace(ps: seq<string>)
    ensures ConcatNonSpace(StripAll(ps)) == ConcatNonSpace(ps)
    decreases |ps|
  {
    if ps != [] {
      NonSpaceStrip(ps[0]);
      StripAllNonSpace(ps[1..]);
      assert StripAll(ps)[0] == Strip(ps[0]) && StripAll(ps)[1..] == StripAll(ps[1..]);
    }
  }

  /** The sections hold every non-whitespace character of the text, in order. */
  lemma SectionsNonSpace(text: string)
    ensures ConcatNonSpace(Sections(text)) == NonSpace(text)
  {
    PiecesCover(text, HeaderSpans(text), 0);
    NonSpaceConcat(Pieces(text, HeaderSpans(text), 0));
    StripAllNonSpace(Pieces(text, HeaderSpans(text), 0));
    assert text[0..] == text;
  }

  lemma {:induction false} StripNonEmptyNonSpace(parts: seq<string>)
    ensures ConcatNonSpace(StripNonEmpty(parts)) == ConcatNonSpace(parts)
    decreases |parts|
  {
    if parts != [] {
      var p := Strip(parts[0]);
      NonSpaceStrip(parts[0]);
      StripNonEmptyNonSpace(parts[1..]);
      ConcatNonSpaceAppend(if p == [] then [] else [p], StripNonEmpty(parts[1..]));
      if p != [] {
        assert ConcatNonSpace([p]) == NonSpace(p) + ConcatNonSpace([]);
      }
    }
  }

  /** The paragraphs of a section hold its non-whitespace characters, in order. */
  lemma ParagraphsNonSpace(section: string)
    ensures ConcatNonSpace(Paragraphs(section)) == NonSpace(section)
  {
    StripNonEmptyNonSpace(Split(section, "\n\n"));
    NonSpaceJoin(Split(section, "\n\n"), "\n\n");
    JoinSplit(section, "\n\n");
  }

  lemma {:induction false} RenderNonSpace(bs: seq<Block>)
    ensures ConcatNonSpace(Render("", bs)) == ConcatNonSpace(Paras(bs))
    decreases |bs|
  {
    if bs != [] {
      var b := bs[0];
      RenderNonSpace(bs[1..]);
      ConcatNonSpaceAppend(Members(b), Paras(bs[1..]));
      assert "" + Body(b) == Body(b);
      match b
      case Packed(ps, _) =>
        NonSpaceJoin(ps, " ");
      case Code(t) =>
        assert ConcatNonSpace([t]) == NonSpace(t) + ConcatNonSpace([]);
      case Listing(t) =>
        assert ConcatNonSpace([t]) == NonSpace(t) + ConcatNonSpace([]);
    }
  }

  lemma {:induction false} SectionsBlocksNonSpace(sections: seq<string>, maxLen: int)
    ensures ConcatNonSpace(Render("", SectionsBlocks(sections, maxLen))) == ConcatNonSpace(sections)
    decreases |sections|
  {
    if sections != [] {
      var sec := sections[0];
      var here := if sec == "" then [] else SectionBlocks(sec, maxLen);
      RenderAppend("", here, SectionsBlocks(sections[1..], maxLen));
      ConcatNonSpaceAppend(Render("", here), Render("", SectionsBlocks(sections[1..], maxLen)));
      SectionsBlocksNonSpace(sections[1..], maxLen);
      if sec != "" {
        RenderNonSpace(here);
        SectionKeepsParagraphs(sec, maxLen);
        ParagraphsNonSpace(sec);
      }
    }
  }

  /** Chunking loses, duplicates and reorders no non-whitespace character: read in order, the
      untitled chunks hold exactly the non-whitespace characters of the text. */
  lemma Coverage(text: string, maxLen: int)
    ensures ConcatNonSpace(ChunkText(text, "", maxLen)) == NonSpace(text)
  {
    SectionsBlocksNonSpace(Sections(text), maxLen);
    SectionsNonSpace(text);
  }

  /** So there are no chunks exactly when the text is blank. */
  lemma NoChunksIffBlank(text: string, title: string, maxLen: int)
    ensures ChunkText(text, title, maxLen) == [] <==> AllSpace(text)
  {
    if AllSpace(text) {
      BlankTextNoChunks(text, title, maxLen);
    } else {
      var i :| 0 <= i < |text| && !IsSpace(text[i]);
      NonSpaceHas(text, i);
      Coverage(text, maxLen);
      TitleOnlyPrefixes(text, title, maxLen);
    }
  }

  lemma {:induction false} NonSpaceHas(s: string, i: nat)
    requires i < |s| && !IsSpace(s[i])
    ensures NonSpace(s) != ""
    decreases i
  {
    if i > 0 {
      NonSpaceHas(s[1..], i - 1);
      NonSpaceAppend([s[0]], s[1..]);
      assert s == [s[0]] + s[1..];
    }
  }
}
