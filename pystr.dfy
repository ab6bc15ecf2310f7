/**
  The Python `str` operations the retrieval engine relies on, over `seq<char>`:
  `str.isspace` (the same class as the regex `\s` for text patterns), `strip()`,
  `startswith`, the substring test `in`, `split(sep)` and `sep.join(parts)`.
 */
module PyStr {
  import opened Wrappers

  /** The characters Python treats as whitespace (`str.isspace`, `\s`, `strip()`). */
  predicate IsSpace(c: char) {
    ('\t' <= c <= '\r') || ('\U{1C}' <= c <= '\U{1F}') || c == ' ' || c == '\U{85}' || c == '\U{A0}'
    || c == '\U{1680}' || ('\U{2000}' <= c <= '\U{200A}') || c == '\U{2028}' || c == '\U{2029}'
    || c == '\U{202F}' || c == '\U{205F}' || c == '\U{3000}'
  }

  predicate AllSpace(s: string) {
    forall k :: 0 <= k < |s| ==> IsSpace(s[k])
  }

  /** What `strip()` leaves: empty, or neither end is whitespace. */
  predicate IsStripped(s: string) {
    s == [] || (!IsSpace(s[0]) && !IsSpace(s[|s| - 1]))
  }

  /** The number of whitespace characters `s` starts with. */
  function LeadingSpace(s: string): (n: nat)
    ensures n <= |s|
    decreases |s|
  {
    if s != [] && IsSpace(s[0]) then 1 + LeadingSpace(s[1..]) else 0
  }

  /** `lstrip()`: the suffix left after dropping the leading whitespace. */
  function TrimStart(s: string): string {
    s[LeadingSpace(s)..]
  }

  /** `rstrip()`: the prefix left after dropping the trailing whitespace. */
  function TrimEnd(s: string): string
    decreases |s|
  {
    if s != [] && IsSpace(s[|s| - 1]) then TrimEnd(s[..|s| - 1]) else s
  }

  /** The facts about `lstrip()` and `rstrip()` live in lemmas rather than in the functions'
      contracts, so that a mention of `strip()` does not bring them along. */
  lemma {:induction false} LeadingSpaceIsSpace(s: string)
    ensures AllSpace(s[..LeadingSpace(s)])
    ensures LeadingSpace(s) < |s| ==> !IsSpace(s[LeadingSpace(s)])
    decreases |s|
  {
    if s != [] && IsSpace(s[0]) {
      LeadingSpaceIsSpace(s[1..]);
      assert s[..LeadingSpace(s)] == [s[0]] + s[1..][..LeadingSpace(s[1..])];
    }
  }

  /** `lstrip()` drops a whitespace prefix and leaves a non-whitespace first character. */
  lemma TrimStartShape(s: string)
    ensures var r := TrimStart(s); |r| <= |s| && r == s[|s| - |r|..]
    ensures var r := TrimStart(s); AllSpace(s[..|s| - |r|]) && (r == [] || !IsSpace(r[0]))
  {
    LeadingSpaceIsSpace(s);
  }

  /** `rstrip()` drops a whitespace suffix and leaves a non-whitespace last character. */
  lemma {:induction false} TrimEndShape(s: string)
    ensures var r := TrimEnd(s); |r| <= |s| && r == s[..|r|]
    ensures var r := TrimEnd(s); AllSpace(s[|r|..]) && (r == [] || !IsSpace(r[|r| - 1]))
    decreases |s|
  {
    if s != [] && IsSpace(s[|s| - 1]) {
      var r := TrimEnd(s[..|s| - 1]);
      TrimEndShape(s[..|s| - 1]);
      assert s[|r|..] == s[..|s| - 1][|r|..] + [s[|s| - 1]];
    }
  }

  /** `strip()` with no argument. */
  function Strip(s: string): (r: string)
    ensures |r| <= |s|
    ensures IsStripped(r)
    ensures r == [] <==> AllSpace(s)
  {
    var t := TrimStart(s);
    var r := TrimEnd(t);
    TrimStartShape(s);
    TrimEndShape(t);
    assert r == [] ==> s == s[..|s| - |t|] + t && AllSpace(t);
    assert r != [] ==> !IsSpace(r[0]) by {
      if r != [] {
        assert r[0] == t[0];
      }
    }
    r
  }

  /** `s.startswith(prefix)`. */
  predicate StartsWith(s: string, prefix: string) {
    |prefix| <= |s| && s[..|prefix|] == prefix
  }

  predicate OccursAt(s: string, t: string, i: nat) {
    i + |t| <= |s| && s[i..i + |t|] == t
  }

  /** `s.find(t, i)`: the first occurrence of `t` in `s` at or after `i`. */
  function FindFrom(s: string, t: string, i: nat): (r: Option<nat>)
    requires i <= |s|
    ensures r.Some? ==> i <= r.value && OccursAt(s, t, r.value)
    ensures r.Some? ==> forall k :: i <= k < r.value ==> !OccursAt(s, t, k)
    ensures r.None? ==> forall k :: i <= k <= |s| ==> !OccursAt(s, t, k)
    decreases |s| - i
  {
    if OccursAt(s, t, i) then Some(i)
    else if i == |s| then None
    else FindFrom(s, t, i + 1)
  }

  /** The substring test `t in s`. */
  predicate Contains(s: string, t: string) {
    FindFrom(s, t, 0).Some?
  }

  /** `s.split(sep)` for a non-empty separator: cut at each occurrence, left to right. */
  function Split(s: string, sep: string): (parts: seq<string>)
    requires |sep| > 0
    ensures |parts| >= 1
    decreases |s|
  {
    match FindFrom(s, sep, 0)
    case None => [s]
    case Some(i) => [s[..i]] + Split(s[i + |sep|..], sep)
  }

  /** `sep.join(parts)`. */
  function Join(parts: seq<string>, sep: string): string
    decreases |parts|
  {
    if |parts| == 0 then ""
    else if |parts| == 1 then parts[0]
    else parts[0] + sep + Join(parts[1..], sep)
  }

  /** Concatenation of a list of strings (`''.join(parts)`). */
  function Concat(parts: seq<string>): string
    decreases |parts|
  {
    if parts == [] then "" else parts[0] + Concat(parts[1..])
  }

  /** The non-whitespace characters of `s`, in order. */
  function NonSpace(s: string): string
    decreases |s|
  {
    if s == [] then "" else (if IsSpace(s[0]) then "" else [s[0]]) + NonSpace(s[1..])
  }

  /** `ConcatNonSpace(parts)` is `NonSpace` applied to each part, concatenated. */
  function ConcatNonSpace(parts: seq<string>): string
    decreases |parts|
  {
    if parts == [] then "" else NonSpace(parts[0]) + ConcatNonSpace(parts[1..])
  }

  // ----- Lemmas about the helpers -----

  /** Bookkeeping for loops that emit a list piece by piece: moving `step` from what is left
      to do onto what is done keeps `done + todo == whole`. */
  lemma Shift<T>(done: seq<T>, todo: seq<T>, step: seq<T>, later: seq<T>, whole: seq<T>)
    requires done + todo == whole && todo == step + later
    ensures (done + step) + later == whole
  {
  }

  /** Joining the pieces of `s.split(sep)` with `sep` gives back `s`. */
  lemma {:induction false} JoinSplit(s: string, sep: string)
    requires |sep| > 0
    ensures Join(Split(s, sep), sep) == s
    decreases |s|
  {
    var f := FindFrom(s, sep, 0);
    if f.Some? {
      var i := f.value;
      var head, rest := s[..i], s[i + |sep|..];
      var tail := Split(rest, sep);
      assert Split(s, sep) == [head] + tail;
      JoinSplit(rest, sep);
      assert Join([head] + tail, sep) == head + sep + Join(tail, sep) by {
        assert ([head] + tail)[1..] == tail;
      }
      assert s == head + s[i..i + |sep|] + rest;
    }
  }

  /** `s.split(sep)` cuts at the leftmost occurrence and splits the rest the same way; there is
      a single piece exactly when `sep` does not occur. With `JoinSplit` this fixes the pieces
      even when occurrences of `sep` overlap. */
  lemma SplitCutsFirst(s: string, sep: string)
    requires |sep| > 0
    ensures |Split(s, sep)| == 1 <==> !Contains(s, sep)
    ensures |Split(s, sep)| == 1 ==> Split(s, sep)[0] == s
    ensures |Split(s, sep)| > 1 ==>
      var head := Split(s, sep)[0];
      && FindFrom(s, sep, 0) == Some(|head|)
      && Split(s, sep)[1..] == Split(s[|head| + |sep|..], sep)
  {
    match FindFrom(s, sep, 0)
    case None =>
    case Some(i) => assert Split(s, sep) == [s[..i]] + Split(s[i + |sep|..], sep);
  }

  /** No piece of `s.split(sep)` contains `sep`. */
  lemma {:induction false} SplitPiecesFree(s: string, sep: string)
    requires |sep| > 0
    ensures forall k :: 0 <= k < |Split(s, sep)| ==> !Contains(Split(s, sep)[k], sep)
    decreases |s|
  {
    var f := FindFrom(s, sep, 0);
    if f.Some? {
      var i := f.value;
      var head, rest := s[..i], s[i + |sep|..];
      assert !Contains(head, sep) by {
        var g := FindFrom(head, sep, 0);
        if g.Some? {
          assert head[g.value..g.value + |sep|] == s[g.value..g.value + |sep|];
          assert OccursAt(s, sep, g.value);
          assert false;
        }
      }
      SplitPiecesFree(rest, sep);
      assert Split(s, sep) == [head] + Split(rest, sep);
    }
  }

  lemma {:induction false} JoinSnoc(parts: seq<string>, p: string, sep: string)
    requires |parts| >= 1
    ensures Join(parts + [p], sep) == Join(parts, sep) + sep + p
    decreases |parts|
  {
    if |parts| == 1 {
      assert (parts + [p])[1..] == [p];
    } else {
      assert (parts + [p])[1..] == parts[1..] + [p];
      JoinSnoc(parts[1..], p, sep);
    }
  }

  /** `strip()` leaves a string without surrounding whitespace unchanged. */
  lemma StripUnchanged(s: string)
    requires IsStripped(s)
    ensures Strip(s) == s
  {
  }

  /** `strip()` ignores one leading whitespace character. */
  lemma StripSkipsSpace(c: char, s: string)
    requires IsSpace(c)
    ensures Strip([c] + s) == Strip(s)
  {
    assert ([c] + s)[1..] == s;
  }

  lemma {:induction false} NonSpaceAppend(a: string, b: string)
    ensures NonSpace(a + b) == NonSpace(a) + NonSpace(b)
    decreases |a|
  {
    if a == [] {
      assert a + b == b;
    } else {
      assert (a + b)[1..] == a[1..] + b;
      NonSpaceAppend(a[1..], b);
    }
  }

  lemma {:induction false} NonSpaceOfSpace(s: string)
    requires AllSpace(s)
    ensures NonSpace(s) == ""
    decreases |s|
  {
    if s != [] {
      NonSpaceOfSpace(s[1..]);
    }
  }

  lemma NonSpaceTrimStart(s: string)
    ensures NonSpace(TrimStart(s)) == NonSpace(s)
  {
    var t := TrimStart(s);
    TrimStartShape(s);
    var front := s[..|s| - |t|];
    assert s == front + t;
    NonSpaceAppend(front, t);
    NonSpaceOfSpace(front);
  }

  lemma NonSpaceTrimEnd(s: string)
    ensures NonSpace(TrimEnd(s)) == NonSpace(s)
  {
    var r := TrimEnd(s);
    TrimEndShape(s);
    var back := s[|r|..];
    assert s == r + back;
    NonSpaceAppend(r, back);
    NonSpaceOfSpace(back);
  }

  /** `strip()` removes whitespace only. */
  lemma NonSpaceStrip(s: string)
    ensures NonSpace(Strip(s)) == NonSpace(s)
  {
    NonSpaceTrimStart(s);
    NonSpaceTrimEnd(TrimStart(s));
  }

  lemma {:induction false} NonSpaceConcat(parts: seq<string>)
    ensures NonSpace(Concat(parts)) == ConcatNonSpace(parts)
    decreases |parts|
  {
    if parts != [] {
      NonSpaceAppend(parts[0], Concat(parts[1..]));
      NonSpaceConcat(parts[1..]);
    }
  }

  /** Joining with a whitespace separator adds no non-whitespace content. */
  lemma {:induction false} NonSpaceJoin(parts: seq<string>, sep: string)
    requires AllSpace(sep)
    ensures NonSpace(Join(parts, sep)) == ConcatNonSpace(parts)
    decreases |parts|
  {
    if |parts| == 1 {
      assert ConcatNonSpace(parts) == NonSpace(parts[0]) + ConcatNonSpace([]);
    } else if |parts| > 1 {
      NonSpaceAppend(parts[0] + sep, Join(parts[1..], sep));
      NonSpaceAppend(parts[0], sep);
      NonSpaceOfSpace(sep);
      NonSpaceJoin(parts[1..], sep);
    }
  }

  lemma {:induction false} ConcatNonSpaceAppend(a: seq<string>, b: seq<string>)
    ensures ConcatNonSpace(a + b) == ConcatNonSpace(a) + ConcatNonSpace(b)
    decreases |a|
  {
    if a == [] {
      assert a + b == b;
    } else {
      assert (a + b)[1..] == a[1..] + b;
      ConcatNonSpaceAppend(a[1..], b);
    }
  }

  /** A join of non-empty stripped parts is itself non-empty and stripped. */
  lemma {:induction false} JoinStripped(parts: seq<string>, sep: string)
    requires |parts| >= 1
    requires forall k :: 0 <= k < |parts| ==> parts[k] != [] && IsStripped(parts[k])
    ensures var j := Join(parts, sep); j != [] && IsStripped(j)
    ensures var j := Join(parts, sep); j[0] == parts[0][0] && j[|j| - 1] == parts[|parts| - 1][|parts[|parts| - 1]| - 1]
    decreases |parts|
  {
    if |parts| > 1 {
      JoinStripped(parts[1..], sep);
    }
  }
}
