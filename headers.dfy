/**
  The header scan of `_create_chunks`: every match of the multi-line pattern
  `^\s*(#{1,6}|\d+\.)\s+(.+)$`, found left to right as `re.finditer` does, as a
  sequence of `(start, end)` spans into the text.

  The functions below follow the regular-expression engine's greedy matching and
  backtracking for this one pattern: `^` holds at the start of the text and just
  after a newline; `\s*` swallows every whitespace character, newlines included;
  `#{1,6}` must be the whole run of `#` and `\d+` the whole run of digits (giving
  characters back never lets the next item match); `\s+` also swallows newlines,
  and only when it reaches the end of the text does it give characters back so
  that `.+` can match a last non-newline character; `.+$` then runs to the end of
  that line.

  The pattern is the one of `project1.py`, line 62, scanned at line 66.
 */
module Headers {
  import opened Wrappers
  import opened PyStr

  datatype Span = Span(start: nat, end: nat)

  predicate IsHash(c: char) { c == '#' }

  /** `\d`, restricted to the ASCII digits. */
  predicate IsDigit(c: char) { '0' <= c <= '9' }

  /** The end of the longest run of characters in a class, starting at `i`. */
  function RunEnd(s: string, i: nat, inClass: char -> bool): (j: nat)
    requires i <= |s|
    ensures i <= j <= |s|
    ensures forall k :: i <= k < j ==> inClass(s[k])
    ensures j == |s| || !inClass(s[j])
    decreases |s| - i
  {
    if i < |s| && inClass(s[i]) then RunEnd(s, i + 1, inClass) else i
  }

  /** Where `.+$` stops when started at `i`: the next newline, or the end of the text. */
  function LineEnd(s: string, i: nat): (j: nat)
    requires i <= |s|
    ensures i <= j <= |s|
    ensures forall k :: i <= k < j ==> s[k] != '\n'
    ensures j == |s| || s[j] == '\n'
    decreases |s| - i
  {
    if i < |s| && s[i] != '\n' then LineEnd(s, i + 1) else i
  }

  /** The last position in `[lo, hi)` that holds something other than a newline. */
  function LastNonNewline(s: string, lo: nat, hi: nat): (r: Option<nat>)
    requires lo <= hi <= |s|
    ensures r.Some? ==> lo <= r.value < hi && s[r.value] != '\n'
    ensures r.Some? ==> forall k :: r.value < k < hi ==> s[k] == '\n'
    ensures r.None? ==> forall k :: lo <= k < hi ==> s[k] == '\n'
    decreases hi - lo
  {
    if lo == hi then None
    else if s[hi - 1] != '\n' then Some(hi - 1)
    else LastNonNewline(s, lo, hi - 1)
  }

  /** `s[q..m]` is a marker of the pattern: one to six `#`, or one or more digits and a `.`. */
  predicate IsMarker(s: string, q: nat, m: nat) {
    && q < m <= |s|
    && ((m - q <= 6 && forall k :: q <= k < m ==> IsHash(s[k]))
        || (q + 1 < m && (forall k :: q <= k < m - 1 ==> IsDigit(s[k])) && s[m - 1] == '.'))
  }

  /** The group `(#{1,6}|\d+\.)` tried at `q`: where it ends, if it matches. A run of `#` is
      taken whole, since a `#` left over could not start the `\s+` that follows. */
  function MarkerEnd(s: string, q: nat): (r: Option<nat>)
    requires q <= |s|
    ensures r.Some? ==> q < r.value <= |s|
    ensures r.Some? ==> IsMarker(s, q, r.value)
    ensures r.Some? && IsHash(s[q]) ==> r.value == |s| || !IsHash(s[r.value])
  {
    if q < |s| && IsHash(s[q]) then
      var h := RunEnd(s, q, IsHash);
      if h - q <= 6 then Some(h) else None
    else if q < |s| && IsDigit(s[q]) then
      var d := RunEnd(s, q, IsDigit);
      if d < |s| && s[d] == '.' then Some(d + 1) else None
    else None
  }

  /** `^` in multi-line mode. */
  predicate AtLineStart(s: string, p: nat)
    requires p <= |s|
  {
    p == 0 || s[p - 1] == '\n'
  }

  /** The whole pattern tried at `p`: the end of the match, if there is one. */
  function MatchAt(s: string, p: nat): (r: Option<nat>)
    requires p <= |s|
    ensures r.Some? ==> p < r.value <= |s|
    ensures r.Some? ==> AtLineStart(s, p) && (r.value == |s| || s[r.value] == '\n')
  {
    if !AtLineStart(s, p) then None
    else
      var q := RunEnd(s, p, IsSpace);
      match MarkerEnd(s, q)
      case None => None
      case Some(m) =>
        if m == |s| || !IsSpace(s[m]) then None
        else
          var w := RunEnd(s, m, IsSpace);
          if w < |s| then Some(LineEnd(s, w))
          else
            match LastNonNewline(s, m + 1, w)
            case None => None
            case Some(k) => Some(LineEnd(s, k))
  }

  /** The pattern read as a description of a header line, without the engine's choices:
      from `p`, where `^` holds, whitespace up to `q`, a marker up to `m`, whitespace (at least
      one character) up to `w`, then at least one character other than a newline up to `e`,
      where `$` holds. */
  predicate HeaderLine(s: string, p: nat, q: nat, m: nat, w: nat, e: nat) {
    && p <= q < m < w < e <= |s|
    && AtLineStart(s, p)
    && (forall k :: p <= k < q ==> IsSpace(s[k]))
    && IsMarker(s, q, m)
    && (forall k :: m <= k < w ==> IsSpace(s[k]))
    && (forall k :: w <= k < e ==> s[k] != '\n')
    && (e == |s| || s[e] == '\n')
  }

  /** Spans lying in order, without overlap, inside `[from, n]`. */
  predicate Ordered(spans: seq<Span>, from: nat, n: nat) {
    && (forall k :: 0 <= k < |spans| ==> from <= spans[k].start < spans[k].end <= n)
    && (forall i, j :: 0 <= i < j < |spans| ==> spans[i].end <= spans[j].start)
  }

  lemma OrderedTail(spans: seq<Span>, from: nat, n: nat)
    requires Ordered(spans, from, n) && spans != []
    ensures Ordered(spans[1..], spans[0].end, n)
  {
    var tail := spans[1..];
    forall i, j | 0 <= i < j < |tail| ensures tail[i].end <= tail[j].start {
      assert tail[i] == spans[i + 1] && tail[j] == spans[j + 1];
    }
    forall k | 0 <= k < |tail| ensures spans[0].end <= tail[k].start < tail[k].end <= n {
      assert tail[k] == spans[k + 1];
    }
  }

  /** `re.finditer` from position `p`: a match at `p`, else the search goes on at `p + 1`. */
  function FindHeaders(s: string, p: nat): (r: seq<Span>)
    requires p <= |s|
    ensures Ordered(r, p, |s|)
    decreases |s| - p
  {
    match MatchAt(s, p)
    case Some(e) => [Span(p, e)] + FindHeaders(s, e)
    case None => if p == |s| then [] else FindHeaders(s, p + 1)
  }

  /** All header matches in `text`, as `re.finditer(header_pattern, text)` yields them. */
  function HeaderSpans(text: string): (r: seq<Span>)
    ensures Ordered(r, 0, |text|)
  {
    FindHeaders(text, 0)
  }

  // ----- Lemmas -----

  /** Every match of the pattern is a header line. */
  lemma MatchIsHeaderLine(s: string, p: nat)
    requires p <= |s| && MatchAt(s, p).Some?
    ensures exists q, m, w :: HeaderLine(s, p, q, m, w, MatchAt(s, p).value)
  {
    var e := MatchAt(s, p).value;
    var q := RunEnd(s, p, IsSpace);
    var m := MarkerEnd(s, q).value;
    var w := RunEnd(s, m, IsSpace);
    if w < |s| {
      assert HeaderLine(s, p, q, m, w, e);
    } else {
      var k := LastNonNewline(s, m + 1, w).value;
      assert HeaderLine(s, p, q, m, k, e);
    }
  }

  /** A marker followed by something other than `#` is the one `MarkerEnd` finds. */
  lemma MarkerEndComplete(s: string, q: nat, m: nat)
    requires IsMarker(s, q, m) && (m == |s| || !IsHash(s[m]))
    ensures MarkerEnd(s, q) == Some(m)
  {
    if IsHash(s[q]) {
      assert RunEnd(s, q, IsHash) == m;
    } else {
      assert RunEnd(s, q, IsDigit) == m - 1;
    }
  }

  lemma {:induction false} LineEndMonotone(s: string, a: nat, b: nat)
    requires a <= b <= |s|
    ensures LineEnd(s, a) <= LineEnd(s, b)
    decreases b - a
  {
    if a < b && s[a] != '\n' {
      LineEndMonotone(s, a + 1, b);
    }
  }

  /** Wherever a header line starts, the pattern matches, and the match the engine picks is
      the longest header line from that position. */
  lemma HeaderLineMatches(s: string, p: nat, q: nat, m: nat, w: nat, e: nat)
    requires HeaderLine(s, p, q, m, w, e)
    ensures MatchAt(s, p).Some? && e <= MatchAt(s, p).value
  {
    assert IsHash(s[q]) || IsDigit(s[q]);
    RunEndAt(s, p, q, IsSpace);
    MarkerEndComplete(s, q, m);
    RunEndPast(s, m, w, IsSpace);
    assert e == LineEnd(s, w);
    var big := RunEnd(s, m, IsSpace);
    if big < |s| {
      LineEndMonotone(s, w, big);
    } else {
      var k := LastNonNewline(s, m + 1, big);
      assert k.Some? && w <= k.value;
      LineEndMonotone(s, w, k.value);
    }
  }

  /** A run of a class that is followed by a character outside it ends there. */
  lemma RunEndAt(s: string, i: nat, j: nat, inClass: char -> bool)
    requires i <= j <= |s|
    requires forall k :: i <= k < j ==> inClass(s[k])
    requires j == |s| || !inClass(s[j])
    ensures RunEnd(s, i, inClass) == j
  {
  }

  lemma RunEndPast(s: string, i: nat, j: nat, inClass: char -> bool)
    requires i <= j <= |s|
    requires forall k :: i <= k < j ==> inClass(s[k])
    ensures j <= RunEnd(s, i, inClass)
  {
  }

  /** Text made of whitespace only holds no header. */
  lemma {:induction false} NoHeaderInBlankText(s: string, p: nat)
    requires p <= |s| && AllSpace(s)
    ensures FindHeaders(s, p) == []
    decreases |s| - p
  {
    assert MatchAt(s, p).None? by {
      if AtLineStart(s, p) {
        var q := RunEnd(s, p, IsSpace);
        assert q == |s|;
      }
    }
    if p < |s| {
      NoHeaderInBlankText(s, p + 1);
    }
  }

  /** Every reported span is a match of the pattern: it starts where `MatchAt` succeeds and ends
      where that match ends. */
  lemma {:induction false} ReportedAreMatches(s: string, p: nat, k: nat)
    requires p <= |s| && k < |FindHeaders(s, p)|
    ensures MatchAt(s, FindHeaders(s, p)[k].start) == Some(FindHeaders(s, p)[k].end)
    decreases |s| - p
  {
    var m := MatchAt(s, p);
    if m.Some? {
      if k > 0 {
        ReportedAreMatches(s, m.value, k - 1);
      }
      ReportedAfterMatch(s, p, m.value, k);
    } else {
      ReportedAreMatches(s, p + 1, k);
      assert FindHeaders(s, p) == FindHeaders(s, p + 1);
    }
  }

  lemma ReportedAfterMatch(s: string, p: nat, e: nat, k: nat)
    requires p <= |s| && MatchAt(s, p) == Some(e) && k < |FindHeaders(s, p)|
    requires k > 0 ==>
               k - 1 < |FindHeaders(s, e)|
               && MatchAt(s, FindHeaders(s, e)[k - 1].start) == Some(FindHeaders(s, e)[k - 1].end)
    ensures MatchAt(s, FindHeaders(s, p)[k].start) == Some(FindHeaders(s, p)[k].end)
  {
    var rest := FindHeaders(s, e);
    assert FindHeaders(s, p) == [Span(p, e)] + rest;
    if k > 0 {
      assert FindHeaders(s, p)[k] == rest[k - 1];
    }
  }

  /** Position `i` lies inside one of `spans`. */
  predicate Covered(spans: seq<Span>, i: nat) {
    exists k :: 0 <= k < |spans| && spans[k].start <= i < spans[k].end
  }

  lemma CoveredCons(head: Span, rest: seq<Span>, i: nat)
    requires Covered(rest, i)
    ensures Covered([head] + rest, i)
  {
    var k :| 0 <= k < |rest| && rest[k].start <= i < rest[k].end;
    assert ([head] + rest)[k + 1] == rest[k];
  }

  /** The scan overlooks no header line: every position where the pattern matches lies inside
      (or starts) one of the reported spans. */
  lemma {:induction false} ScanMissesNothing(s: string, p: nat, i: nat)
    requires p <= i <= |s|
    requires MatchAt(s, i).Some?
    ensures Covered(FindHeaders(s, p), i)
    decreases |s| - p
  {
    var m := MatchAt(s, p);
    if m.Some? {
      var e := m.value;
      if e <= i {
        ScanMissesNothing(s, e, i);
      }
      ScanAfterMatch(s, p, e, i);
    } else {
      assert p != i;
      ScanMissesNothing(s, p + 1, i);
      ScanAfterMiss(s, p, i);
    }
  }

  /** The other step: no match at `p`, so the scan from `p` is the scan from `p + 1`. */
  lemma ScanAfterMiss(s: string, p: nat, i: nat)
    requires p < |s| && MatchAt(s, p).None?
    requires Covered(FindHeaders(s, p + 1), i)
    ensures Covered(FindHeaders(s, p), i)
  {
    assert FindHeaders(s, p) == FindHeaders(s, p + 1);
  }

  /** One step of `ScanMissesNothing`: a match at `p` ending at `e` covers `i`, or the scan from
      `e` does. */
  lemma ScanAfterMatch(s: string, p: nat, e: nat, i: nat)
    requires p <= i <= |s|
    requires MatchAt(s, p) == Some(e)
    requires e <= i ==> Covered(FindHeaders(s, e), i)
    ensures Covered(FindHeaders(s, p), i)
  {
    var head, rest := Span(p, e), FindHeaders(s, e);
    assert FindHeaders(s, p) == [head] + rest;
    if i < e {
      assert ([head] + rest)[0] == head;
    } else {
      CoveredCons(head, rest, i);
    }
  }
}

/** A worked example of the header scan. */
module HeaderSample {
  import opened Wrappers
  import opened PyStr
  import opened Headers

  /** A header after a blank line: `^` may match at the start of the blank line, and `\s*`
      then swallows the newline, so the match starts one character early. */
  const Sample := "a\n\n# T\nb"

  lemma SampleMatch()
    ensures MatchAt(Sample, 2) == Some(6)
  {
    assert RunEnd(Sample, 2, IsSpace) == 3;
    assert MarkerEnd(Sample, 3) == Some(4);
    assert RunEnd(Sample, 4, IsSpace) == 5;
    assert LineEnd(Sample, 5) == 6;
  }

  lemma SampleMisses()
    ensures MatchAt(Sample, 0) == None && MatchAt(Sample, 1) == None
    ensures MatchAt(Sample, 6) == None && MatchAt(Sample, 7) == None && MatchAt(Sample, 8) == None
  {
    assert RunEnd(Sample, 0, IsSpace) == 0;
    assert RunEnd(Sample, 7, IsSpace) == 7;
    assert RunEnd(Sample, 8, IsSpace) == 8;
  }

  /** The scan finds the one header, as the span from the blank line to the end of `# T`. */
  lemma SampleHeaders()
    ensures HeaderSpans(Sample) == [Span(2, 6)]
  {
    SampleMatch();
    SampleMisses();
    assert FindHeaders(Sample, 8) == [];
    assert FindHeaders(Sample, 7) == [];
    assert FindHeaders(Sample, 6) == [];
    assert FindHeaders(Sample, 2) == [Span(2, 6)];
    assert FindHeaders(Sample, 1) == [Span(2, 6)];
  }
}
