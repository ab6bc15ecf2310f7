# QASystem retrieval core, modelled in Dafny

This project models the retrieval engine of `project1.py`, class `QASystem`, and proves what it promises.

**The chunker** (`_create_chunks`).
- It cuts a document into sections at header lines. The header pattern `(?m)^\s*(#{1,6}|\d+\.)\s+(.+)$` is modelled exactly, with the regular-expression engine's greedy matching and backtracking.
- It cuts each section into blank-line paragraphs.
- A paragraph that holds a ``` fence, or a line that, once stripped, starts with `•`, `-`, `*` or `1.`, becomes a chunk of its own.
- The other paragraphs are packed into a buffer under the `max_length` budget.
- The title is put in front of every chunk.

**The index build** (the loop of `__init__`). It applies the chunker to each document in order. It also builds the parallel list `chunk_metadata`. A document's `title` may be a string, JSON `null` (what the crawler writes for a page without a heading), or missing. A `null` title gives no prefix and is recorded as `None`. A missing `title` key makes `doc['title']` raise `KeyError` once the document yields a chunk.

**The ranked selection and sentinel answer** (`get_answer`). The selection keeps scores at or above the threshold, up to `top_k` of them, in ranking order. With nothing selected, a fixed sentinel answer is returned.

**The context window** (`_get_context`). It joins the neighbouring chunks within `window` positions of a result, without the result itself.

The code is imperative, and so is the model:
- `SplitSections`, `PackSection`, `PackSections` and `CreateChunks` are methods with the source's loops.
- `SelectTop` has the early `break`.
- Class `QASystem` holds the index as fields. `AddDocument` and `AddMetadata` update them, `Build` constructs the object, and `GetAnswer` and `GetContext` read it.
- Each method is proved equal to a specification function: `Sections`, `SectionBlocks` (through `Blocks`, the paragraph loop over paragraphs classified by `IsCode` and `IsList`), `ChunkText`, `AllChunks`/`AllMeta`, `Selection` and `ContextText` (through `Excluding`, the neighbours in the window).
- The properties are lemmas about those functions.

Files, one module each:
- `wrappers.dfy`: `Option`, `Result`.
- `pystr.dfy`: the Python `str` operations used.
- `headers.dfy`: the header scan and a worked example.
- `chunker.dfy`: the chunker.
- `chunker_props.dfy`: its properties.
- `qa.dfy`: the index and the queries.
- `retrieval_props.dfy`: their properties.

The model follows the code where the design description of the system says otherwise:
- **Indentation test.** The description counts a paragraph with an indented line as code. The code strips each line before testing for indentation, so that test never holds (`CodeMeansFence`).
- **Tied scores.** The description breaks ties by chunk position. `np.argsort(...)[::-1]` fixes no tie order, so the ranking is any order of the indices with non-increasing scores (`IsRanking`).
- **Packed chunk size.** The description bounds a packed chunk by `max_length`. The test `len(current_chunk) + len(para) <= max_length` does not count the joining space, so a buffer of two or more paragraphs may reach `max_length + 1` characters (`PackedWithinBudget`).
- **Header sections.** The description has a header section run to the next header. The code makes the match span alone a section (project1.py:71), and the text after it becomes a section of its own (`PiecesStep`). The span runs past the header line when the `\s+` after the marker crosses newlines. It can also start on an earlier blank line, where `^\s*` swallows the newline (`SampleMatch`).
- **`top_k <= 0`.** The description caps the results at `top_k` for every `top_k >= 0`. The `break` test comes after the first index is looked at, so `top_k = 0` still returns one result (`Selection`, `SampleSelectionTopZero`).

## Model

| member | source | states |
|---|---|---|
| PyStr.IsSpace | project1.py:62 | the whitespace class: the characters for which `str.isspace` holds, which are both what `\s` matches in a text pattern and what `strip()` removes |
| PyStr.TrimStart | project1.py:69 | `lstrip()`: the text after its leading whitespace |
| PyStr.TrimEnd | project1.py:69 | `rstrip()`: the text before its trailing whitespace |
| PyStr.StartsWith | project1.py:98 | `s.startswith(prefix)`: the first `len(prefix)` characters of `s` are `prefix` |
| PyStr.Contains | project1.py:88 | the test `t in s`: `t` occurs somewhere in `s`, as `FindFrom` finds it |
| PyStr.Join | project1.py:187 | `sep.join(parts)`: the parts with `sep` between neighbours, and `''` for no parts |
| PyStr.Strip | project1.py:69 | `strip()` never lengthens its input, leaves no whitespace at either end, and is empty exactly when the input is all whitespace |
| PyStr.LeadingSpaceIsSpace | project1.py:69 | the characters `lstrip()` drops are all whitespace, and the first one kept is not |
| PyStr.TrimStartShape | project1.py:69 | `lstrip()` removes a whitespace prefix and keeps the rest unchanged |
| PyStr.TrimEndShape | project1.py:69 | `rstrip()` removes a whitespace suffix and keeps the rest unchanged |
| PyStr.StripUnchanged | project1.py:94 | stripping an already stripped paragraph changes nothing |
| PyStr.StripSkipsSpace | project1.py:116 | `strip()` ignores the leading space that the merge branch puts in front of the buffer |
| PyStr.NonSpaceStrip | project1.py:69 | `strip()` removes whitespace only: the non-whitespace characters are kept, in order |
| PyStr.FindFrom | project1.py:88 | `find` returns the first occurrence at or after the start position, and `None` only when there is none |
| PyStr.Split | project1.py:83 | `split(sep)` returns at least one piece |
| PyStr.SplitCutsFirst | project1.py:83 | `split(sep)` cuts at the leftmost occurrence and splits the rest the same way; there is one piece exactly when `sep` does not occur |
| PyStr.JoinSplit | project1.py:83 | joining the pieces of `split(sep)` with `sep` gives back the text |
| PyStr.SplitPiecesFree | project1.py:83 | no piece of `split(sep)` contains `sep` |
| PyStr.NonSpaceJoin | project1.py:109 | joining with a whitespace separator adds no non-whitespace character |
| PyStr.JoinStripped | project1.py:109 | a join of non-empty stripped paragraphs is non-empty and stripped |
| Headers.RunEnd | project1.py:62 | the end of the longest run of characters of one class, as `\s*`, `#{1,6}` and `\d+` take them greedily |
| Headers.LineEnd | project1.py:62 | `.+$` runs to the next newline or to the end of the text |
| Headers.LastNonNewline | project1.py:62 | the last character before a position that is not a newline, which is where `\s+` gives back a character for `.+` |
| Headers.MarkerEnd | project1.py:62 | when the marker group matches, what it takes is one to six `#` ending the run of `#`, or one or more digits followed by a `.` |
| Headers.MarkerEndComplete | project1.py:62 | any such marker not followed by `#` is the one the group matches |
| Headers.MatchAt | project1.py:62 | a match of the pattern starts where `^` holds and ends at a newline or at the end of the text |
| Headers.MatchIsHeaderLine | project1.py:62 | every match is a header line: whitespace, a marker, at least one whitespace character, then at least one character other than a newline up to the end of the line |
| Headers.HeaderLineMatches | project1.py:62 | wherever a header line starts, the pattern matches, and the match is the longest header line from there |
| Headers.AtLineStart | project1.py:62 | `^` under `(?m)`: at the start of the text, or just after a newline |
| Headers.FindHeaders | project1.py:66 | the spans `re.finditer` yields lie in order, without overlap, inside the text |
| Headers.HeaderSpans | project1.py:66 | `re.finditer(header_pattern, text)`: the match spans of the scan from position 0, in order, without overlap, inside the text |
| Headers.ReportedAreMatches | project1.py:66 | every reported span starts where the pattern matches and ends where that match ends |
| Headers.ScanMissesNothing | project1.py:66 | every position where the pattern matches lies inside a reported span |
| Headers.NoHeaderInBlankText | project1.py:62 | text that is only whitespace holds no header |
| HeaderSample.SampleMatch | project1.py:62 | in `"a\n\n# T\nb"`, the match begins at the blank line, because `^\s*` swallows the newline |
| HeaderSample.SampleHeaders | project1.py:66 | the scan of that text reports exactly the one span from the blank line to the end of `# T` |
| Chunker.Pieces | project1.py:63-76 | the unstripped pieces lines 66-76 cut the text into: the text before each match when there is any, the match itself, then the rest after the last match when there is any |
| Chunker.StripAll | project1.py:69-76 | each piece stripped, one result per piece |
| Chunker.Sections | project1.py:63-76 | the `sections` list: the stripped pieces, in text order |
| Chunker.StripAllAppend | project1.py:69-76 | stripping each piece of a concatenation is stripping each part |
| Chunker.PiecesStep | project1.py:66-72 | one header match adds the stripped text before it (when there is any), then the stripped header line |
| Chunker.HeaderStep | project1.py:67-72 | the body of the header loop appends exactly that step |
| Chunker.PiecesTail | project1.py:75-76 | after the last header, the stripped rest of the text is added when there is any |
| Chunker.SplitSections | project1.py:63-76 | the section loop builds exactly `Sections(text)` |
| Chunker.StripNonEmpty | project1.py:83 | the paragraph list holds only non-empty stripped paragraphs |
| Chunker.Paragraphs | project1.py:83 | the paragraphs of a section are non-empty and stripped |
| Chunker.IsCode | project1.py:88 | the code test: the paragraph holds a ``` fence, or some line, once stripped, starts with four spaces or a tab |
| Chunker.IsList | project1.py:98 | the list test: some line, once stripped, starts with `•`, `-`, `*` or `1.` |
| Chunker.KindOf | project1.py:88-98 | how the loop treats a paragraph: code if the code test holds, else a list if the list test holds, else regular |
| Chunker.Classify | project1.py:88-98 | classification keeps one entry per paragraph |
| Chunker.ClassifyAt | project1.py:88-98 | entry `k` is paragraph `k` with the kind that the code test, then the list test, give it |
| Chunker.Render | project1.py:91-116 | one chunk string per block |
| Chunker.RenderAt | project1.py:91-116 | chunk `k` is the title prefix followed by the body of block `k` |
| Chunker.RenderAppend | project1.py:91-116 | the chunks of consecutive block lists are concatenated |
| Chunker.StripBuffer | project1.py:91 | a non-empty buffer strips to its paragraphs joined by single spaces |
| Chunker.BufTextGrow | project1.py:109 | `current_chunk += " " + para` adds the paragraph to the buffer |
| Chunker.RenderClose | project1.py:90-92 | flushing the buffer emits its block, or nothing when it is empty |
| Chunker.PackStepSpecial | project1.py:88-105 | a code or list paragraph emits the pending buffer, then itself as its own chunk; the buffer restarts empty |
| Chunker.PackStepMerge | project1.py:108-109 | a regular paragraph that fits is appended to the buffer, which stays stripped |
| Chunker.PackStepFlush | project1.py:110-113 | a regular paragraph that does not fit emits the buffer and starts a new one |
| Chunker.PackParagraph | project1.py:87-113 | one round of the paragraph loop emits what the specification emits for that paragraph and leaves the buffer it leaves |
| Chunker.PackRegular | project1.py:107-113 | the same for a regular paragraph |
| Chunker.Blocks | project1.py:85-116 | the blocks the paragraph loop emits from a given buffer over the remaining classified paragraphs, up to and including the final flush |
| Chunker.SectionBlocks | project1.py:83-116 | the blocks of one section, with the buffer starting empty |
| Chunker.SectionsBlocks | project1.py:78-80 | the blocks of every section in order, with empty sections skipped |
| Chunker.Context | project1.py:59 | the prefix `f"{title}\n\n"`, or nothing when the title is empty |
| Chunker.ChunkText | project1.py:46-118 | what `_create_chunks` returns: every block of every section, rendered with the title prefix |
| Chunker.PackSection | project1.py:83-116 | the paragraph loop of a section returns exactly that section's chunks |
| Chunker.SectionsStep | project1.py:78-80 | the chunks of the sections are those of the first (none when it is empty), then those of the rest |
| Chunker.PackSections | project1.py:78-116 | the loop over the sections returns exactly their chunks |
| Chunker.CreateChunks | project1.py:46-118 | `_create_chunks` returns exactly `ChunkText(text, title, max_length)` |
| ChunkerProperties.BlocksKeepParagraphs | project1.py:85-116 | the packing loop neither drops, repeats nor reorders paragraphs: the blocks hold the pending buffer followed by the remaining paragraphs |
| ChunkerProperties.TextsClassify | project1.py:86 | classifying keeps the paragraphs and their order |
| ChunkerProperties.SectionKeepsParagraphs | project1.py:83-116 | a section's chunks hold exactly its paragraphs, in order |
| ChunkerProperties.SectionsIndependent | project1.py:85 | sections are packed independently: the chunks of two lists of sections are those of the first, then those of the second |
| ChunkerProperties.ClassifySound | project1.py:88-98 | every classified paragraph carries the kind its tests give it |
| ChunkerProperties.MergeKeeps | project1.py:108-109 | merging keeps a multi-paragraph buffer within `max_length + 1` characters, and holding regular stripped paragraphs |
| ChunkerProperties.BlocksWellFormed | project1.py:85-116 | each block is well formed: a code block passes the code test; a list block fails it and passes the list test; a packed block holds regular stripped paragraphs and keeps the budget |
| ChunkerProperties.SectionsWellFormed | project1.py:78-116 | every chunk of a document comes from a well formed block |
| ChunkerProperties.PackedWithinBudget | project1.py:107-113 | a merged buffer is at most `max_length` characters, or `max_length + 1` with two or more paragraphs; a single paragraph that never merged is emitted whole, however long |
| ChunkerProperties.FirstBlock | project1.py:107-116 | with a non-empty buffer, the first block emitted is that buffer, grown or not |
| ChunkerProperties.PackedIsGreedy | project1.py:107-113 | a packed chunk is followed by another packed chunk only when the next paragraph did not fit in the first one's buffer |
| ChunkerProperties.SectionIsGreedy | project1.py:107-113 | the same for the chunks of one section |
| ChunkerProperties.GreedyAtFlush | project1.py:110-113 | where the buffer is flushed, the next block is the buffer the paragraph that did not fit opens |
| ChunkerProperties.IndentTestIsDead | project1.py:88 | a stripped line never starts with four spaces or a tab |
| ChunkerProperties.CodeMeansFence | project1.py:88 | a paragraph counts as code exactly when it contains a ``` fence |
| ChunkerProperties.ChunksCarryTitle | project1.py:59-116 | every chunk is `title + "\n\n"` followed by a non-empty stripped body, or just that body when the title is empty |
| ChunkerProperties.TitleOnlyPrefixes | project1.py:59 | the titled chunks are the untitled ones, each with the prefix in front |
| ChunkerProperties.BlankTextNoChunks | project1.py:75-80 | empty or whitespace-only text yields no chunks |
| ChunkerProperties.PiecesCover | project1.py:63-76 | the section pieces, concatenated, are the text |
| ChunkerProperties.SectionsNonSpace | project1.py:63-76 | the sections hold every non-whitespace character of the text, in order |
| ChunkerProperties.ParagraphsNonSpace | project1.py:83 | the paragraphs of a section hold its non-whitespace characters, in order |
| ChunkerProperties.Coverage | project1.py:46-118 | the chunks hold exactly the non-whitespace characters of the text, in order: nothing is lost, duplicated or reordered |
| ChunkerProperties.NoChunksIffBlank | project1.py:75-80 | there are no chunks exactly when the text is blank |
| QA.TitleOr | project1.py:25 | `doc.get('title', '')` as line 59 uses it: the title text, or `''` for a missing key or a `null` title, both of which give no prefix |
| QA.DocChunks | project1.py:25 | the chunks of one document, with the default `max_length` of 150 |
| QA.MetaTitle | project1.py:32 | `doc['title']` when the key exists: the string, or `None` for `null` |
| QA.MetaOf | project1.py:30-33 | the metadata entry appended for each chunk of a document: its `url` and `doc['title']` |
| QA.AllChunks | project1.py:24-26 | `self.chunks` after the build loop over the documents: each document's chunks, in document order |
| QA.AllMeta | project1.py:29-33 | `self.chunk_metadata` after the same loop: one entry per chunk, in the same order |
| QA.BuildFails | project1.py:32 | the build loop raises `KeyError`: some document without a `title` key yields at least one chunk |
| QA.Repeat | project1.py:29-33 | `n` copies of one metadata entry |
| QA.Qualifying | project1.py:138-140 | the visited indices that reach the threshold, in visiting order |
| QA.Selection | project1.py:137-142 | the kept indices reach the threshold; there are at most `top_k` of them, or at most one when `top_k <= 0` |
| QA.QualifyingGrows | project1.py:138-140 | visiting more indices only adds kept ones at the end |
| QA.SelectionAtBreak | project1.py:141-142 | at the `break`, the kept indices are the selection |
| QA.SelectionAtEnd | project1.py:138-142 | when the loop runs out of indices, the kept indices are the selection |
| QA.SelectTop | project1.py:137-142 | the selection loop with its early `break` keeps exactly `Selection(...)` |
| QA.QASystem.constructor | project1.py:18-22 | the object starts with the documents and no chunks or metadata |
| QA.QASystem.AddDocument | project1.py:25-33 | one round of the build loop appends the document's chunks, then one metadata entry per chunk, or none when `doc['title']` raises on a missing key; on success `chunks` and `chunk_metadata` stay the same length |
| QA.QASystem.AddMetadata | project1.py:29-33 | the metadata loop appends one entry per chunk (title `None` for a `null` title), and fails exactly when the document has no `title` key and at least one chunk; on success, `n` entries short before means aligned after |
| QA.QASystem.Build | project1.py:24-33 | the build raises `KeyError('title')` exactly when some document without a `title` key yields a chunk; a `null` title builds; otherwise chunks and metadata are `AllChunks(docs)` and `AllMeta(docs)`, of equal length |
| QA.Excluding | project1.py:182-185 | `self.chunks[i]` for each `i` in `range(start, end)` other than `index`, in order |
| QA.ContextText | project1.py:178-187 | what `_get_context(index, window)` returns: the neighbours in the window clamped to the index, joined by single spaces |
| QA.QASystem.GetContext | project1.py:169-187 | `_get_context` returns `ContextText(chunks, index, window)` |
| QA.QASystem.GetAnswer | project1.py:137-167 | the sentinel alone when nothing is selected (the constant `Sentinel`: the fixed message, similarity 0.0, and empty context, url and title, as at lines 144-151); otherwise one answer per selected index, with chunk, score, context and the chunk's metadata |
| QA.BuildStillGood | project1.py:24-33 | a document that builds keeps the prefix free of the `KeyError` |
| QA.AllMetaLength | project1.py:24-33 | `chunk_metadata` is as long as `chunks` |
| RetrievalProperties.AllChunksAppend | project1.py:24-26 | the chunks of two lists of documents are those of the first, then those of the second |
| RetrievalProperties.AllMetaAppend | project1.py:29-33 | the same for the metadata |
| RetrievalProperties.AllChunksOne | project1.py:25-33 | a single document contributes its chunks and one metadata entry per chunk |
| RetrievalProperties.ChunkSource | project1.py:24-26 | chunk `j` of document `d` sits at position `Offset(docs, d) + j` of the index |
| RetrievalProperties.ChunksAround | project1.py:24-26 | the index is the chunks of the documents before `d`, then those of `d`, then those after it |
| RetrievalProperties.MetaAround | project1.py:29-33 | the same for the metadata, with one entry per chunk of `d` |
| RetrievalProperties.OffsetStep | project1.py:24-26 | the chunks of document `d` end where those of document `d + 1` begin |
| RetrievalProperties.MetaSource | project1.py:29-33 | the metadata at that position holds the `url` of document `d` and its title, `None` for a `null` title |
| RetrievalProperties.BuiltTitles | project1.py:25-32 | after a successful build, every document that produced a chunk has its `title` key; the metadata title is `None` exactly for a `null` title, and otherwise the title the chunks carry |
| RetrievalProperties.IsRanking | project1.py:138 | what `np.argsort(similarities)[::-1]` is: every chunk index exactly once, in non-increasing order of score, with ties in any order |
| RetrievalProperties.QualifyingPrefix | project1.py:138-140 | on a descending order, the qualifying indices are a prefix of it, and everything after them is below the threshold |
| RetrievalProperties.LastQualifies | project1.py:138-140 | when the last index qualifies, every index does |
| RetrievalProperties.AllQualify | project1.py:138-140 | when every index reaches the threshold, all of them are kept, in order |
| RetrievalProperties.SelectionIsPrefix | project1.py:137-142 | the selection is a prefix of the ranking |
| RetrievalProperties.SelectionDescending | project1.py:137-142 | the selected scores are non-increasing and no index is repeated |
| RetrievalProperties.SelectionComplete | project1.py:137-142 | when fewer than the allowed number of results was kept, every index left out is below the threshold |
| RetrievalProperties.SentinelIffNoneQualifies | project1.py:144-151 | the sentinel is returned exactly when no chunk reaches the threshold |
| RetrievalProperties.ThresholdMonotone | project1.py:137-142 | raising the threshold only drops results from the end of the list |
| RetrievalProperties.SampleSelection | project1.py:137-142 | scores `[0.1, 0.85, 0.3]` ranked `[1, 2, 0]` with the defaults select chunks 1 then 2 |
| RetrievalProperties.SampleSelectionTopZero | project1.py:141 | with `top_k = 0` the best chunk is still kept |
| RetrievalProperties.SampleSelectionHighThreshold | project1.py:139 | a threshold above every score selects nothing |
| RetrievalProperties.ExcludingSlices | project1.py:182-185 | the neighbours are the window `[start, end)` with the result's position cut out |
| RetrievalProperties.InteriorContext | project1.py:178-187 | an interior chunk's default context is its two neighbours joined by one space |
| RetrievalProperties.EdgeContext | project1.py:178-179 | at either end of the index the window is cut short to the one neighbour |
| RetrievalProperties.NoWindowNoContext | project1.py:184 | the chunk itself is never part of its own context: a window of 0 gives the empty string |

## Left out

- The sentence embedder and cosine similarity (project1.py:15, 36, 131-134) are foreign library calls over floating point. The model takes the similarity of every chunk as an input `scores`. It takes the order `np.argsort(similarities)[::-1]` as an input `order`, described by `IsRanking`.
- QA.QASystem.GetAnswer: takes `scores` and `order` in place of the question, and requires them to match the index. The `question` string itself plays no part in the model.
- QA.QASystem.Build: starts from already loaded documents. `_load_documents` (project1.py:38-44) is file and JSON I/O.
- Documents are modelled with `url` and `content` always present. A missing `url` or `content` key, which would raise `KeyError`, is not modelled. All three cases of `title` are modelled: a string, JSON `null`, and a missing key. A `title` of any other JSON type is not.
- Scores are exact reals: `float(similarities[idx])`, NaN and rounding are not modelled.
- An empty index is not modelled as the source behaves: there the embedding and similarity calls fail, while `GetAnswer` accepts `chunks == []` (with `scores == []` and `order == []`) and returns the sentinel answer.
- Headers.IsDigit: `\d` is restricted to the ASCII digits. The Unicode decimal digits beyond them are not modelled.
- `format_answer` (project1.py:189-197) and the interactive loop under `__main__` are display and console I/O.
- The crawlers, web services, launchers, HTTP client scripts, configuration loader and table summing script of the repository are outside this model.
