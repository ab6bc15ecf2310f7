/**
  `QASystem._create_chunks`: split a document into sections at header lines,
  split each section into blank-line paragraphs, give fenced-code and list
  paragraphs a chunk of their own, pack the other paragraphs into a buffer under a
  length budget, and put the title in front of every chunk.

  The methods follow the source's loops; each is proved equal to a specification
  function (`Sections`, `SectionBlocks`, `ChunkText`), and the properties promised
  for the chunker are lemmas about those functions.

  Line numbers in comments refer to `project1.py`.
 */
module Chunker {
  import opened PyStr
  import opened Headers

  // ----- Sections -----

  /** The raw text pieces the section loop slices out: text before a header, the header
      match itself, and so on, then what remains after the last header. */
  function Pieces(text: string, spans: seq<Span>, from: nat): (r: seq<string>)
    requires from <= |text| && Ordered(spans, from, |text|)
    decreases |spans|
  {
    if spans == [] then
      if from < |text| then [text[from..]] else []
    else
      var m := spans[0];
      (if from < m.start then [text[from..m.start]] else []) + [text[m.start..m.end]]
      + Pieces(text, spans[1..], m.end)
  }

  function StripAll(pieces: seq<string>): (r: seq<string>)
    ensures |r| == |pieces|
    decreases |pieces|
  {
    if pieces == [] then [] else [Strip(pieces[0])] + StripAll(pieces[1..])
  }

  /** The `sections` list built at lines 63-76. */
  function Sections(text: string): seq<string> {
    StripAll(Pieces(text, HeaderSpans(text), 0))
  }

  lemma {:induction false} StripAllAppend(a: seq<string>, b: seq<string>)
    ensures StripAll(a + b) == StripAll(a) + StripAll(b)
    decreases |a|
  {
    if a == [] {
      assert a + b == b;
    } else {
      assert (a + b)[1..] == a[1..] + b;
      StripAllAppend(a[1..], b);
    }
  }

  /** One step of the section loop: the first span contributes the text before it (if any)
      and its own text. */
  lemma PiecesStep(text: string, spans: seq<Span>, from: nat)
    requires from <= |text| && Ordered(spans, from, |text|) && spans != []
    ensures var m := spans[0];
      StripAll(Pieces(text, spans, from))
      == ((if from < m.start then [Strip(text[from..m.start])] else []) + [Strip(text[m.start..m.end])])
         + StripAll(Pieces(text, spans[1..], m.end))
  {
    var m := spans[0];
    OrderedTail(spans, from, |text|);
    var before := if from < m.start then [text[from..m.start]] else [];
    var mid := text[m.start..m.end];
    var later := Pieces(text, spans[1..], m.end);
    assert Pieces(text, spans, from) == (before + [mid]) + later;
    StripAllAppend(before + [mid], later);
    StripAllAppend(before, [mid]);
    var sb := StripAll(before);
    assert sb == if from < m.start then [Strip(text[from..m.start])] else [];
    assert StripAll([mid]) == [Strip(mid)];
  }

  /** The body of the section loop for one header match `m`, the first of `rest`: the text
      before it (if any), then the header line itself, both stripped. */
  method HeaderStep(text: string, lastEnd: nat, m: Span, ghost rest: seq<Span>) returns (step: seq<string>)
    requires lastEnd <= |text| && Ordered(rest, lastEnd, |text|) && rest != [] && rest[0] == m
    ensures m.end <= |text| && Ordered(rest[1..], m.end, |text|)
    ensures StripAll(Pieces(text, rest, lastEnd)) == step + StripAll(Pieces(text, rest[1..], m.end))
  {
    OrderedTail(rest, lastEnd, |text|);
    PiecesStep(text, rest, lastEnd);
    step := [];
    if lastEnd < m.start {
      step := [Strip(text[lastEnd..m.start])];
    }
    step := step + [Strip(text[m.start..m.end])];
  }

  /** After the last header: the rest of the text, if any. */
  lemma PiecesTail(text: string, from: nat)
    requires from <= |text|
    ensures StripAll(Pieces(text, [], from)) == if from < |text| then [Strip(text[from..])] else []
  {
  }

  /** The section loop of lines 63-76. */
  method SplitSections(text: string) returns (sections: seq<string>)
    ensures sections == Sections(text)
  {
    var spans := HeaderSpans(text);
    ghost var whole := Sections(text);
    sections := [];
    var lastEnd: nat := 0;
    assert spans[0..] == spans;
    for k := 0 to |spans|
      invariant lastEnd <= |text|
      invariant Ordered(spans[k..], lastEnd, |text|)
      invariant sections + StripAll(Pieces(text, spans[k..], lastEnd)) == whole
    {
      var m := spans[k];
      ghost var rest := spans[k..];
      assert rest[0] == m && rest[1..] == spans[k + 1..];
      var step := HeaderStep(text, lastEnd, m, rest);
      Shift(sections, StripAll(Pieces(text, rest, lastEnd)), step,
            StripAll(Pieces(text, spans[k + 1..], m.end)), whole);
      sections := sections + step;
      lastEnd := m.end;
    }
    assert spans[|spans|..] == [];
    PiecesTail(text, lastEnd);
    if lastEnd < |text| {
      sections := sections + [Strip(text[lastEnd..])];
    }
  }

  // ----- Paragraphs and their classification -----

  /** `[p.strip() for p in parts if p.strip()]`. */
  function StripNonEmpty(parts: seq<string>): (r: seq<string>)
    ensures forall k :: 0 <= k < |r| ==> r[k] != [] && IsStripped(r[k])
    decreases |parts|
  {
    if parts == [] then []
    else
      var p := Strip(parts[0]);
      (if p == [] then [] else [p]) + StripNonEmpty(parts[1..])
  }

  /** The paragraphs of a section (line 83). */
  function Paragraphs(section: string): (r: seq<string>)
    ensures forall k :: 0 <= k < |r| ==> r[k] != [] && IsStripped(r[k])
  {
    StripNonEmpty(Split(section, "\n\n"))
  }

  function Lines(para: string): seq<string> {
    Split(para, "\n")
  }

  predicate IndentMarked(line: string) {
    StartsWith(line, "    ") || StartsWith(line, "\t")
  }

  predicate ListMarked(line: string) {
    StartsWith(line, "\U{2022}") || StartsWith(line, "-") || StartsWith(line, "*") || StartsWith(line, "1.")
  }

  /** Some line, once stripped, starts with indentation. */
  predicate AnyIndented(lines: seq<string>)
    decreases |lines|
  {
    lines != [] && (IndentMarked(Strip(lines[0])) || AnyIndented(lines[1..]))
  }

  /** Some line, once stripped, starts with a bullet or `1.`. */
  predicate AnyListed(lines: seq<string>)
    decreases |lines|
  {
    lines != [] && (ListMarked(Strip(lines[0])) || AnyListed(lines[1..]))
  }

  /** The code test of line 88: a ``` fence, or a stripped line starting with indentation. */
  predicate IsCode(para: string) {
    Contains(para, "```") || AnyIndented(Lines(para))
  }

  /** The list test of line 98: a stripped line starting with a bullet or `1.`. */
  predicate IsList(para: string) {
    AnyListed(Lines(para))
  }

  /** How the paragraph loop treats a paragraph: as code, as a list, or as a regular
      paragraph for the buffer (the tests of lines 88 and 98, in that order). */
  datatype Kind = CodeKind | ListKind | Prose

  function KindOf(p: string): Kind {
    if IsCode(p) then CodeKind else if IsList(p) then ListKind else Prose
  }

  /** A paragraph with the kind its tests give it. */
  datatype Para = Para(text: string, kind: Kind)

  function Classify(ps: seq<string>): (r: seq<Para>)
    ensures |r| == |ps|
    decreases |ps|
  {
    if ps == [] then [] else [Para(ps[0], KindOf(ps[0]))] + Classify(ps[1..])
  }

  lemma {:induction false} ClassifyAt(ps: seq<string>, k: nat)
    requires k < |ps|
    ensures Classify(ps)[k] == Para(ps[k], KindOf(ps[k]))
    decreases k
  {
    if k > 0 {
      ClassifyAt(ps[1..], k - 1);
    }
  }

  // ----- Packing paragraphs into chunks -----

  /** What a chunk body is made of: a code paragraph, a list paragraph, or the regular
      paragraphs that were packed into the buffer. `lead` records that the buffer was opened
      by the merge branch, which puts a space in front (`current_chunk += " " + para`). */
  datatype Block = Code(text: string) | Listing(text: string) | Packed(paras: seq<string>, lead: bool)

  /** The value of `current_chunk` while it holds the paragraphs `pend`. */
  function BufText(pend: seq<string>, lead: bool): string {
    if pend == [] then "" else (if lead then " " else "") + Join(pend, " ")
  }

  /** The chunk text of a block, before the title prefix. */
  function Body(b: Block): string {
    match b
    case Code(t) => t
    case Listing(t) => t
    case Packed(ps, _) => Join(ps, " ")
  }

  /** Emit the buffer if it is not empty. */
  function Close(pend: seq<string>, lead: bool): seq<Block> {
    if pend == [] then [] else [Packed(pend, lead)]
  }

  /** The paragraph loop of lines 85-116, from a buffer holding `pend`. */
  function Blocks(paras: seq<Para>, pend: seq<string>, lead: bool, maxLen: int): seq<Block>
    decreases |paras|
  {
    if paras == [] then Close(pend, lead)
    else
      var p := paras[0].text;
      match paras[0].kind
      case CodeKind => Close(pend, lead) + [Code(p)] + Blocks(paras[1..], [], false, maxLen)
      case ListKind => Close(pend, lead) + [Listing(p)] + Blocks(paras[1..], [], false, maxLen)
      case Prose =>
        if |BufText(pend, lead)| + |p| <= maxLen then Blocks(paras[1..], pend + [p], pend == [] || lead, maxLen)
        else Close(pend, lead) + Blocks(paras[1..], [p], false, maxLen)
  }

  function SectionBlocks(section: string, maxLen: int): seq<Block> {
    Blocks(Classify(Paragraphs(section)), [], false, maxLen)
  }

  /** The blocks of every non-empty section, in order (line 78-80 skip empty ones). */
  function SectionsBlocks(sections: seq<string>, maxLen: int): seq<Block>
    decreases |sections|
  {
    if sections == [] then []
    else (if sections[0] == "" then [] else SectionBlocks(sections[0], maxLen))
         + SectionsBlocks(sections[1..], maxLen)
  }

  /** The prefix `f"{title}\n\n" if title else ""` of line 59. */
  function Context(title: string): string {
    if title == "" then "" else title + "\n\n"
  }

  /** The chunk strings: the prefix followed by each block's body. */
  function Render(ctx: string, bs: seq<Block>): (r: seq<string>)
    ensures |r| == |bs|
    decreases |bs|
  {
    if bs == [] then [] else [ctx + Body(bs[0])] + Render(ctx, bs[1..])
  }

  lemma {:induction false} RenderAt(ctx: string, bs: seq<Block>, k: nat)
    requires k < |bs|
    ensures Render(ctx, bs)[k] == ctx + Body(bs[k])
    decreases k
  {
    if k > 0 {
      RenderAt(ctx, bs[1..], k - 1);
    }
  }

  /** What `_create_chunks(text, title, max_length)` returns. */
  function ChunkText(text: string, title: string, maxLen: int): seq<string> {
    Render(Context(title), SectionsBlocks(Sections(text), maxLen))
  }

  lemma {:induction false} RenderAppend(ctx: string, a: seq<Block>, b: seq<Block>)
    ensures Render(ctx, a + b) == Render(ctx, a) + Render(ctx, b)
    decreases |a|
  {
    if a == [] {
      assert a + b == b;
    } else {
      assert (a + b)[1..] == a[1..] + b;
      RenderAppend(ctx, a[1..], b);
    }
  }

  predicate AllStripped(ps: seq<string>) {
    forall k :: 0 <= k < |ps| ==> ps[k] != [] && IsStripped(ps[k])
  }

  lemma AllStrippedSnoc(ps: seq<string>, p: string)
    requires AllStripped(ps) && p != [] && IsStripped(p)
    ensures AllStripped(ps + [p])
  {
  }

  /** Stripping the buffer yields the packed paragraphs joined by single spaces. */
  lemma StripBuffer(pend: seq<string>, lead: bool)
    requires pend != [] && AllStripped(pend)
    ensures BufText(pend, lead) != ""
    ensures Strip(BufText(pend, lead)) == Join(pend, " ")
  {
    JoinStripped(pend, " ");
    StripUnchanged(Join(pend, " "));
    if lead {
      StripSkipsSpace(' ', Join(pend, " "));
      assert BufText(pend, lead) == [' '] + Join(pend, " ");
    }
  }

  /** `current_chunk += " " + para` adds the paragraph to the buffer. */
  lemma BufTextGrow(pend: seq<string>, lead: bool, p: string)
    ensures BufText(pend, lead) + " " + p == BufText(pend + [p], pend == [] || lead)
  {
    if pend != [] {
      JoinSnoc(pend, p, " ");
    }
  }

  /** What the code emits when it flushes the buffer (`if current_chunk: chunks.append(...)`). */
  function Flushed(ctx: string, current: string): seq<string> {
    if current != "" then [ctx + Strip(current)] else []
  }

  lemma RenderClose(ctx: string, pend: seq<string>, lead: bool)
    requires AllStripped(pend)
    ensures Render(ctx, Close(pend, lead)) == Flushed(ctx, BufText(pend, lead))
  {
    if pend != [] {
      StripBuffer(pend, lead);
    }
  }

  /** A code or list paragraph: the buffer, if any, then the paragraph alone. */
  lemma PackStepSpecial(ctx: string, paras: seq<Para>, pend: seq<string>, lead: bool, maxLen: int)
    requires paras != [] && IsStripped(paras[0].text) && AllStripped(pend)
    requires paras[0].kind != Prose
    ensures Render(ctx, Blocks(paras, pend, lead, maxLen))
            == (Flushed(ctx, BufText(pend, lead)) + [ctx + Strip(paras[0].text)])
               + Render(ctx, Blocks(paras[1..], [], false, maxLen))
  {
    var p := paras[0].text;
    var b := if paras[0].kind == CodeKind then Code(p) else Listing(p);
    assert Render(ctx, [b]) == [ctx + p];
    StripUnchanged(p);
    RenderClose(ctx, pend, lead);
    var rest := Blocks(paras[1..], [], false, maxLen);
    assert Blocks(paras, pend, lead, maxLen) == (Close(pend, lead) + [b]) + rest;
    RenderAppend(ctx, Close(pend, lead) + [b], rest);
    RenderAppend(ctx, Close(pend, lead), [b]);
  }

  /** A regular paragraph that fits is appended to the buffer. */
  lemma PackStepMerge(ctx: string, paras: seq<Para>, pend: seq<string>, lead: bool, maxLen: int)
    requires paras != [] && paras[0].text != [] && IsStripped(paras[0].text) && AllStripped(pend)
    requires paras[0].kind == Prose && |BufText(pend, lead)| + |paras[0].text| <= maxLen
    ensures Render(ctx, Blocks(paras, pend, lead, maxLen))
            == Render(ctx, Blocks(paras[1..], pend + [paras[0].text], pend == [] || lead, maxLen))
    ensures BufText(pend, lead) + " " + paras[0].text == BufText(pend + [paras[0].text], pend == [] || lead)
    ensures AllStripped(pend + [paras[0].text])
  {
    BufTextGrow(pend, lead, paras[0].text);
    AllStrippedSnoc(pend, paras[0].text);
  }

  /** A regular paragraph that does not fit: the buffer is emitted and restarted with it. */
  lemma PackStepFlush(ctx: string, paras: seq<Para>, pend: seq<string>, lead: bool, maxLen: int)
    requires paras != [] && AllStripped(pend)
    requires paras[0].kind == Prose && |BufText(pend, lead)| + |paras[0].text| > maxLen
    ensures Render(ctx, Blocks(paras, pend, lead, maxLen))
            == Flushed(ctx, BufText(pend, lead)) + Render(ctx, Blocks(paras[1..], [paras[0].text], false, maxLen))
  {
    RenderClose(ctx, pend, lead);
    RenderAppend(ctx, Close(pend, lead), Blocks(paras[1..], [paras[0].text], false, maxLen));
  }

  /** The body of the paragraph loop (lines 87-113) for the paragraph `para` of kind `kind`,
      the head of the classified paragraphs `paras` still to pack: what is appended to
      `chunks`, and the new buffer. */
  method PackParagraph(para: string, kind: Kind, ghost paras: seq<Para>, context: string,
                       maxLen: int, current: string, ghost pend: seq<string>, ghost lead: bool)
    returns (emitted: seq<string>, next: string, ghost pend': seq<string>, ghost lead': bool)
    requires para != [] && IsStripped(para)
    requires paras != [] && paras[0] == Para(para, kind)
    requires current == BufText(pend, lead) && AllStripped(pend)
    ensures next == BufText(pend', lead') && AllStripped(pend')
    ensures Render(context, Blocks(paras, pend, lead, maxLen))
            == emitted + Render(context, Blocks(paras[1..], pend', lead', maxLen))
  {
    if kind == CodeKind || kind == ListKind {
      // a code block or a list: emit the pending buffer, then the paragraph on its own
      PackStepSpecial(context, paras, pend, lead, maxLen);
      emitted := Flushed(context, current) + [context + Strip(para)];
      next := "";
      pend', lead' := [], false;
    } else {
      emitted, next, pend', lead' := PackRegular(para, paras, context, maxLen, current, pend, lead);
    }
  }

  /** A regular paragraph (lines 107-113): it joins the buffer if the two fit in `maxLen`;
      otherwise the buffer is emitted and restarted with the paragraph. */
  method PackRegular(para: string, ghost paras: seq<Para>, context: string,
                     maxLen: int, current: string, ghost pend: seq<string>, ghost lead: bool)
    returns (emitted: seq<string>, next: string, ghost pend': seq<string>, ghost lead': bool)
    requires para != [] && IsStripped(para)
    requires paras != [] && paras[0] == Para(para, Prose)
    requires current == BufText(pend, lead) && AllStripped(pend)
    ensures next == BufText(pend', lead') && AllStripped(pend')
    ensures Render(context, Blocks(paras, pend, lead, maxLen))
            == emitted + Render(context, Blocks(paras[1..], pend', lead', maxLen))
  {
    if |current| + |para| <= maxLen {
      PackStepMerge(context, paras, pend, lead, maxLen);
      emitted := [];
      next := current + " " + para;
      pend', lead' := pend + [para], pend == [] || lead;
    } else {
      PackStepFlush(context, paras, pend, lead, maxLen);
      emitted := Flushed(context, current);
      next := para;
      pend', lead' := [para], false;
    }
  }

  /** The paragraph loop of one section (lines 83-116). */
  method PackSection(section: string, context: string, maxLen: int) returns (out: seq<string>)
    ensures out == Render(context, SectionBlocks(section, maxLen))
  {
    var paragraphs := Paragraphs(section);
    out := [];
    var current := "";
    ghost var pend: seq<string> := [];
    ghost var lead := false;
    ghost var classified := Classify(paragraphs);
    ghost var whole := Render(context, Blocks(classified, [], false, maxLen));
    assert classified[0..] == classified;
    for i := 0 to |paragraphs|
      invariant current == BufText(pend, lead)
      invariant AllStripped(pend)
      invariant out + Render(context, Blocks(classified[i..], pend, lead, maxLen)) == whole
    {
      ghost var pend0, lead0 := pend, lead;
      var emitted;
      // the code test of line 88, then the list test of line 98
      var kind := KindOf(paragraphs[i]);
      ClassifyAt(paragraphs, i);
      assert classified[i..][1..] == classified[i + 1..];
      emitted, current, pend, lead := PackParagraph(paragraphs[i], kind, classified[i..], context, maxLen, current, pend, lead);
      Shift(out, Render(context, Blocks(classified[i..], pend0, lead0, maxLen)), emitted,
            Render(context, Blocks(classified[i + 1..], pend, lead, maxLen)), whole);
      out := out + emitted;
    }
    assert classified[|paragraphs|..] == [];
    RenderClose(context, pend, lead);
    out := out + Flushed(context, current);
  }

  /** Rendering the blocks of the sections from `i` on renders section `i`, then the rest. */
  lemma SectionsStep(context: string, sections: seq<string>, i: nat, maxLen: int)
    requires i < |sections|
    ensures Render(context, SectionsBlocks(sections[i..], maxLen))
            == Render(context, if sections[i] == "" then [] else SectionBlocks(sections[i], maxLen))
               + Render(context, SectionsBlocks(sections[i + 1..], maxLen))
  {
    var todo := sections[i..];
    assert todo[0] == sections[i] && todo[1..] == sections[i + 1..];
    RenderAppend(context, if sections[i] == "" then [] else SectionBlocks(sections[i], maxLen),
                 SectionsBlocks(sections[i + 1..], maxLen));
  }

  /** The loop over the sections (lines 77-116): each non-empty section is packed in turn. */
  method PackSections(sections: seq<string>, context: string, maxLen: int) returns (chunks: seq<string>)
    ensures chunks == Render(context, SectionsBlocks(sections, maxLen))
  {
    chunks := [];
    ghost var whole := Render(context, SectionsBlocks(sections, maxLen));
    assert sections[0..] == sections;
    for i := 0 to |sections|
      invariant chunks + Render(context, SectionsBlocks(sections[i..], maxLen)) == whole
    {
      var section := sections[i];
      var sectionChunks: seq<string> := [];
      if section != "" {
        sectionChunks := PackSection(section, context, maxLen);
      }
      SectionsStep(context, sections, i, maxLen);
      Shift(chunks, Render(context, SectionsBlocks(sections[i..], maxLen)), sectionChunks,
            Render(context, SectionsBlocks(sections[i + 1..], maxLen)), whole);
      chunks := chunks + sectionChunks;
    }
    assert sections[|sections|..] == [];
  }

  /** `_create_chunks(text, title, max_length)` (lines 46-118). */
  method CreateChunks(text: string, title: string, maxLen: int) returns (chunks: seq<string>)
    ensures chunks == ChunkText(text, title, maxLen)
  {
    var context := if title != "" then title + "\n\n" else "";
    var sections := SplitSections(text);
    chunks := PackSections(sections, context, maxLen);
  }
}
