/** The pure part of `make_embeddings` (src/bin/make_embeddings.rs): splitting the
    source text into paragraphs with the pattern `\n{2,}|\r\n{2,}`, and pairing the
    i-th returned embedding with the i-th paragraph under the id `i.to_string()`. */
module MakeEmbeddings {
  import opened Outcomes
  import opened Types
  import opened Decimal

  // ------------------------------------------------------------------ separators

  /** A separator is a run of two or more `\n`, or a `\r` followed by two or more `\n`. */
  predicate IsSeparator(t: string)
  {
    || (|t| >= 2 && forall i :: 0 <= i < |t| ==> t[i] == '\n')
    || (|t| >= 3 && t[0] == '\r' && forall i :: 1 <= i < |t| ==> t[i] == '\n')
  }

  /** No two consecutive `\n`. */
  predicate NoBlankLine(c: string)
  {
    forall i :: 0 <= i < |c| - 1 ==> !(c[i] == '\n' && c[i + 1] == '\n')
  }

  /** The number of consecutive `\n` starting at `p`. */
  function NewlineRun(s: string, p: nat): (n: nat)
    requires p <= |s|
    ensures p + n <= |s|
    decreases |s| - p
  {
    if p < |s| && s[p] == '\n' then 1 + NewlineRun(s, p + 1) else 0
  }

  /** The run is made of `\n` and cannot be extended by another `\n`. */
  lemma {:induction false} NewlineRunIsMaximal(s: string, p: nat)
    requires p <= |s|
    ensures forall q :: p <= q < p + NewlineRun(s, p) ==> s[q] == '\n'
    ensures p + NewlineRun(s, p) == |s| || s[p + NewlineRun(s, p)] != '\n'
    decreases |s| - p
  {
    if p < |s| && s[p] == '\n' {
      NewlineRunIsMaximal(s, p + 1);
    }
  }

  /** The length of the separator the regex matches at `p`, 0 if none. The two
      alternatives start with different characters, and `{2,}` is greedy. */
  function MatchLen(s: string, p: nat): (m: nat)
    requires p < |s|
    ensures p + m <= |s|
  {
    if NewlineRun(s, p) >= 2 then NewlineRun(s, p)
    else if s[p] == '\r' && NewlineRun(s, p + 1) >= 2 then 1 + NewlineRun(s, p + 1)
    else 0
  }

  /** A match is a separator that no further `\n` could extend; no match means that
      neither `\n\n` nor `\r\n\n` starts at `p`. */
  lemma MatchLenIsLongestSeparator(s: string, p: nat)
    requires p < |s|
    ensures MatchLen(s, p) > 0 ==> IsSeparator(s[p..p + MatchLen(s, p)])
    ensures MatchLen(s, p) > 0 ==> p + MatchLen(s, p) == |s| || s[p + MatchLen(s, p)] != '\n'
    ensures MatchLen(s, p) == 0 ==> !(p + 1 < |s| && s[p] == '\n' && s[p + 1] == '\n')
    ensures MatchLen(s, p) == 0 ==> !(p + 2 < |s| && s[p] == '\r' && s[p + 1] == '\n' && s[p + 2] == '\n')
  {
    NewlineRunIsMaximal(s, p);
    NewlineRunIsMaximal(s, p + 1);
    var m := MatchLen(s, p);
    if m > 0 {
      var t := s[p..p + m];
      if NewlineRun(s, p) >= 2 {
        assert forall i :: 0 <= i < |t| ==> t[i] == s[p + i];
      } else {
        assert t[0] == '\r';
        assert forall i :: 1 <= i < |t| ==> t[i] == s[p + i];
      }
    } else {
      assert p + 1 < |s| && s[p] == '\n' ==> NewlineRun(s, p) == 1 + NewlineRun(s, p + 1);
    }
  }

  /** A run of `\n` from `p` up to `q` that no further `\n` extends is the run counted at `p`. */
  lemma {:induction false} NewlineRunExact(s: string, p: nat, q: nat)
    requires p <= q <= |s|
    requires forall k :: p <= k < q ==> s[k] == '\n'
    requires q == |s| || s[q] != '\n'
    ensures NewlineRun(s, p) == q - p
    decreases q - p
  {
    if p < q {
      NewlineRunExact(s, p + 1, q);
    }
  }

  /** Conversely to `MatchLenIsLongestSeparator`: a separator at `p` that no further `\n`
      extends is exactly what the regex matches there. */
  lemma MatchLenOfSeparator(s: string, p: nat, t: string)
    requires p + |t| <= |s| && s[p..p + |t|] == t && IsSeparator(t)
    requires p + |t| == |s| || s[p + |t|] != '\n'
    ensures p < |s| && MatchLen(s, p) == |t|
  {
    assert forall k :: p <= k < p + |t| ==> s[k] == t[k - p];
    if t[0] == '\n' {
      NewlineRunExact(s, p, p + |t|);
    } else {
      NewlineRunExact(s, p + 1, p + |t|);
    }
  }

  /** No match begins inside a span without a blank line, unless the span ends in `\r` or
      `\n` right before a `\n`. */
  lemma NoMatchStartsInSpan(s: string, a: nat, b: nat, p: nat)
    requires a <= p < b <= |s| && NoBlankLine(s[a..b])
    requires b == |s| || s[b] != '\n' || (s[b - 1] != '\r' && s[b - 1] != '\n')
    ensures MatchLen(s, p) == 0
  {
    MatchLenIsLongestSeparator(s, p);
    if p + 1 < b {
      assert s[a..b][p - a] == s[p] && s[a..b][p - a + 1] == s[p + 1];
    }
    if p + 2 < b {
      assert s[a..b][p + 1 - a] == s[p + 1] && s[a..b][p + 2 - a] == s[p + 2];
    }
  }

  predicate NoMatchIn(s: string, a: nat, b: nat)
    requires a <= b <= |s|
  {
    forall q :: a <= q < b ==> MatchLen(s, q) == 0
  }

  // ------------------------------------------------------------------ splitting

  /** The paragraphs (`chunks`, what `re.split(text)` yields) and the separator text
      removed between consecutive paragraphs. */
  datatype Pieces = Pieces(chunks: seq<string>, separators: seq<string>)

  function Cons(chunk: string, separator: string, rest: Pieces): Pieces
  {
    Pieces([chunk] + rest.chunks, [separator] + rest.separators)
  }

  /** Chunks and separators put back together in order. */
  function Interleave(chunks: seq<string>, separators: seq<string>): string
    requires |chunks| == |separators| + 1
  {
    if separators == [] then chunks[0]
    else chunks[0] + separators[0] + Interleave(chunks[1..], separators[1..])
  }

  lemma {:induction false} SuffixOfInterleave(chunks: seq<string>, separators: seq<string>)
    requires |chunks| == |separators| + 1
    ensures var t := Interleave(chunks, separators);
      var last := chunks[|chunks| - 1];
      |last| <= |t| && t[|t| - |last|..] == last
  {
    if separators != [] {
      SuffixOfInterleave(chunks[1..], separators[1..]);
    }
  }

  predicate SeparatorsMatch(r: Pieces)
  {
    forall j :: 0 <= j < |r.separators| ==> IsSeparator(r.separators[j])
  }

  predicate ChunksHaveNoBlankLine(r: Pieces)
  {
    forall j :: 0 <= j < |r.chunks| ==> NoBlankLine(r.chunks[j])
  }

  predicate StartsClean(chunk: string)
  {
    chunk == [] || chunk[0] != '\n'
  }

  /** Every chunk after the first does not begin with `\n`. */
  predicate LaterChunksStartClean(r: Pieces)
  {
    forall j :: 1 <= j < |r.chunks| ==> StartsClean(r.chunks[j])
  }

  /** Every separator is maximal: the text that follows it, which is chunk `j` and what
      comes after, does not begin with `\n`. */
  predicate SeparatorsAreMaximal(r: Pieces)
    requires |r.chunks| == |r.separators| + 1
  {
    forall j :: 1 <= j < |r.chunks| ==> StartsClean(Interleave(r.chunks[j..], r.separators[j..]))
  }

  predicate EndsClean(chunk: string, separator: string)
  {
    separator == [] || separator[0] != '\n' || chunk == [] ||
    (chunk[|chunk| - 1] != '\r' && chunk[|chunk| - 1] != '\n')
  }

  /** No chunk that precedes a separator of `\n` ends with `\r` or `\n`. */
  predicate ChunksEndClean(r: Pieces)
    requires |r.chunks| == |r.separators| + 1
  {
    forall j :: 0 <= j < |r.separators| ==> EndsClean(r.chunks[j], r.separators[j])
  }

  lemma ConsSeparators(chunk: string, separator: string, rest: Pieces)
    requires IsSeparator(separator) && SeparatorsMatch(rest)
    ensures SeparatorsMatch(Cons(chunk, separator, rest))
  {
    var r := Cons(chunk, separator, rest);
    forall j | 0 <= j < |r.separators| ensures IsSeparator(r.separators[j]) {
      if j > 0 { assert r.separators[j] == rest.separators[j - 1]; }
    }
  }

  lemma ConsNoBlankLine(chunk: string, separator: string, rest: Pieces)
    requires NoBlankLine(chunk) && ChunksHaveNoBlankLine(rest)
    ensures ChunksHaveNoBlankLine(Cons(chunk, separator, rest))
  {
    var r := Cons(chunk, separator, rest);
    forall j | 0 <= j < |r.chunks| ensures NoBlankLine(r.chunks[j]) {
      if j > 0 { assert r.chunks[j] == rest.chunks[j - 1]; }
    }
  }

  lemma ConsStartsClean(chunk: string, separator: string, rest: Pieces)
    requires |rest.chunks| > 0 && StartsClean(rest.chunks[0]) && LaterChunksStartClean(rest)
    ensures LaterChunksStartClean(Cons(chunk, separator, rest))
  {
    var r := Cons(chunk, separator, rest);
    forall j | 1 <= j < |r.chunks| ensures StartsClean(r.chunks[j]) {
      assert r.chunks[j] == rest.chunks[j - 1];
    }
  }

  lemma ConsEndsClean(chunk: string, separator: string, rest: Pieces)
    requires |rest.chunks| == |rest.separators| + 1
    requires EndsClean(chunk, separator) && ChunksEndClean(rest)
    ensures ChunksEndClean(Cons(chunk, separator, rest))
  {
    var r := Cons(chunk, separator, rest);
    forall j | 0 <= j < |r.separators| ensures EndsClean(r.chunks[j], r.separators[j]) {
      if j > 0 { assert r.chunks[j] == rest.chunks[j - 1] && r.separators[j] == rest.separators[j - 1]; }
    }
  }

  lemma ConsMaximal(chunk: string, separator: string, rest: Pieces)
    requires |rest.chunks| == |rest.separators| + 1
    requires StartsClean(Interleave(rest.chunks, rest.separators)) && SeparatorsAreMaximal(rest)
    ensures SeparatorsAreMaximal(Cons(chunk, separator, rest))
  {
    var r := Cons(chunk, separator, rest);
    forall j | 1 <= j < |r.chunks|
      ensures StartsClean(Interleave(r.chunks[j..], r.separators[j..]))
    {
      assert r.chunks[j..] == rest.chunks[j - 1..] && r.separators[j..] == rest.separators[j - 1..];
      assert rest.chunks[0..] == rest.chunks && rest.separators[0..] == rest.separators;
    }
  }

  /** The leftmost-first, non-overlapping search of `Regex::split`: the current chunk
      began at `start`, and the search for the next match resumes at `p`. */
  function Scan(s: string, start: nat, p: nat): (r: Pieces)
    requires start <= p <= |s|
    ensures |r.chunks| == |r.separators| + 1
    decreases |s| - p
  {
    if p == |s| then
      Pieces([s[start..]], [])
    else
      var m := MatchLen(s, p);
      if m == 0 then
        Scan(s, start, p + 1)
      else
        Cons(s[start..p], s[p..p + m], Scan(s, p + m, p + m))
  }

  /** Putting the separators back between the chunks rebuilds the scanned text. */
  lemma {:induction false} ScanRebuilds(s: string, start: nat, p: nat)
    requires start <= p <= |s|
    ensures var r := Scan(s, start, p); Interleave(r.chunks, r.separators) == s[start..]
    decreases |s| - p
  {
    if p < |s| {
      var m := MatchLen(s, p);
      if m == 0 {
        ScanRebuilds(s, start, p + 1);
      } else {
        ScanRebuilds(s, p + m, p + m);
        var rest := Scan(s, p + m, p + m);
        var r := Scan(s, start, p);
        assert r.chunks[1..] == rest.chunks && r.separators[1..] == rest.separators;
        assert s[start..] == s[start..p] + s[p..p + m] + s[p + m..];
      }
    }
  }

  /** Every separator removed is a match of the pattern. */
  lemma {:induction false} ScanSeparators(s: string, start: nat, p: nat)
    requires start <= p <= |s|
    ensures SeparatorsMatch(Scan(s, start, p))
    decreases |s| - p
  {
    if p < |s| {
      var m := MatchLen(s, p);
      if m == 0 {
        ScanSeparators(s, start, p + 1);
      } else {
        ScanSeparators(s, p + m, p + m);
        MatchLenIsLongestSeparator(s, p);
        ConsSeparators(s[start..p], s[p..p + m], Scan(s, p + m, p + m));
      }
    }
  }

  /** No chunk holds a blank line: a blank line would have started a match. */
  lemma {:induction false} ScanNoBlankLine(s: string, start: nat, p: nat)
    requires start <= p <= |s| && NoMatchIn(s, start, p)
    ensures ChunksHaveNoBlankLine(Scan(s, start, p))
    decreases |s| - p
  {
    if p == |s| {
      ChunkHasNoBlankLine(s, start, p);
    } else {
      var m := MatchLen(s, p);
      if m == 0 {
        ScanNoBlankLine(s, start, p + 1);
      } else {
        ChunkHasNoBlankLine(s, start, p);
        ScanNoBlankLine(s, p + m, p + m);
        ConsNoBlankLine(s[start..p], s[p..p + m], Scan(s, p + m, p + m));
      }
    }
  }

  /** The first chunk of a scan is a prefix of the text from where it began. */
  lemma {:induction false} ScanFirstChunk(s: string, start: nat, p: nat)
    requires start <= p <= |s|
    ensures Scan(s, start, p).chunks[0] <= s[start..]
    decreases |s| - p
  {
    if p < |s| {
      if MatchLen(s, p) == 0 {
        ScanFirstChunk(s, start, p + 1);
      } else {
        assert Scan(s, start, p).chunks[0] == s[start..p];
      }
    }
  }

  /** Separators are maximal runs, so a chunk that follows one does not begin with `\n`. */
  lemma {:induction false} ScanChunkStarts(s: string, start: nat, p: nat)
    requires start <= p <= |s|
    ensures LaterChunksStartClean(Scan(s, start, p))
    decreases |s| - p
  {
    if p < |s| {
      var m := MatchLen(s, p);
      if m == 0 {
        ScanChunkStarts(s, start, p + 1);
      } else {
        ScanChunkStarts(s, p + m, p + m);
        ScanFirstChunk(s, p + m, p + m);
        MatchLenIsLongestSeparator(s, p);
        var rest := Scan(s, p + m, p + m);
        assert StartsClean(rest.chunks[0]) by {
          if rest.chunks[0] != [] {
            assert rest.chunks[0][0] == s[p + m..][0] == s[p + m];
          }
        }
        ConsStartsClean(s[start..p], s[p..p + m], rest);
      }
    }
  }

  /** The search is leftmost, so a chunk before a separator of `\n` does not end with `\r`
      (that `\r` would have begun the match). */
  lemma {:induction false} ScanChunkEnds(s: string, start: nat, p: nat)
    requires start <= p <= |s| && NoMatchIn(s, start, p)
    ensures ChunksEndClean(Scan(s, start, p))
    decreases |s| - p
  {
    if p < |s| {
      var m := MatchLen(s, p);
      if m == 0 {
        ScanChunkEnds(s, start, p + 1);
      } else {
        ScanChunkEnds(s, p + m, p + m);
        var chunk := s[start..p];
        var sep := s[p..p + m];
        MatchLenIsLongestSeparator(s, p);
        if sep[0] == '\n' && chunk != [] {
          assert s[p] == '\n' && s[p + 1] == '\n';
          assert MatchLen(s, p - 1) == 0;
          MatchLenIsLongestSeparator(s, p - 1);
        }
        ConsEndsClean(chunk, sep, Scan(s, p + m, p + m));
      }
    }
  }

  /** The regex is greedy, so the text after every separator does not begin with `\n`. */
  lemma {:induction false} ScanSeparatorsMaximal(s: string, start: nat, p: nat)
    requires start <= p <= |s|
    ensures SeparatorsAreMaximal(Scan(s, start, p))
    decreases |s| - p
  {
    if p < |s| {
      var m := MatchLen(s, p);
      if m == 0 {
        ScanSeparatorsMaximal(s, start, p + 1);
      } else {
        ScanSeparatorsMaximal(s, p + m, p + m);
        ScanRebuilds(s, p + m, p + m);
        MatchLenIsLongestSeparator(s, p);
        var rest := Scan(s, p + m, p + m);
        assert StartsClean(Interleave(rest.chunks, rest.separators)) by {
          if p + m < |s| {
            assert s[p + m..][0] == s[p + m];
          }
        }
        ConsMaximal(s[start..p], s[p..p + m], rest);
      }
    }
  }

  lemma ChunkHasNoBlankLine(s: string, start: nat, p: nat)
    requires start <= p <= |s| && NoMatchIn(s, start, p)
    ensures NoBlankLine(s[start..p])
  {
    forall i | 0 <= i < p - start - 1
      ensures !(s[start..p][i] == '\n' && s[start..p][i + 1] == '\n')
    {
      assert MatchLen(s, start + i) == 0;
      MatchLenIsLongestSeparator(s, start + i);
    }
  }

  /** `Regex::new(r"\n{2,}|\r\n{2,}").split(text)`: the chunks, one more than the
      separators matched; putting the separators back rebuilds the text; no chunk holds
      a blank line; separators are maximal, so the text after one does not begin with `\n`;
      and the search is leftmost, so no chunk before a `\n…` separator ends with the `\r` or
      `\n` that would have begun the match. `SplitIsUnique` shows these determine the result. */
  function Split(text: string): (r: Pieces)
    ensures |r.chunks| == |r.separators| + 1
    ensures Interleave(r.chunks, r.separators) == text
    ensures SeparatorsMatch(r)
    ensures ChunksHaveNoBlankLine(r)
    ensures LaterChunksStartClean(r)
    ensures SeparatorsAreMaximal(r)
    ensures ChunksEndClean(r)
  {
    ScanRebuilds(text, 0, 0);
    ScanSeparatorsMaximal(text, 0, 0);
    ScanSeparators(text, 0, 0);
    ScanNoBlankLine(text, 0, 0);
    ScanChunkStarts(text, 0, 0);
    ScanChunkEnds(text, 0, 0);
    assert text[0..] == text;
    Scan(text, 0, 0)
  }

  /** Everything `Split` promises, apart from `LaterChunksStartClean`, which follows from
      `SeparatorsAreMaximal`. */
  predicate LeftmostGreedy(r: Pieces)
  {
    && |r.chunks| == |r.separators| + 1
    && SeparatorsMatch(r)
    && ChunksHaveNoBlankLine(r)
    && SeparatorsAreMaximal(r)
    && ChunksEndClean(r)
  }

  /** Dropping the first chunk and separator keeps a leftmost, greedy decomposition. */
  lemma TailIsLeftmostGreedy(r: Pieces)
    requires LeftmostGreedy(r) && |r.separators| > 0
    ensures LeftmostGreedy(Pieces(r.chunks[1..], r.separators[1..]))
  {
    var tail := Pieces(r.chunks[1..], r.separators[1..]);
    forall j | 1 <= j < |tail.chunks|
      ensures StartsClean(Interleave(tail.chunks[j..], tail.separators[j..]))
    {
      assert tail.chunks[j..] == r.chunks[j + 1..] && tail.separators[j..] == r.separators[j + 1..];
    }
  }

  /** No match begins inside the first chunk of a leftmost decomposition. */
  lemma NoMatchInFirstChunk(s: string, start: nat, r: Pieces)
    requires start <= |s| && LeftmostGreedy(r) && Interleave(r.chunks, r.separators) == s[start..]
    ensures start + |r.chunks[0]| <= |s| && NoMatchIn(s, start, start + |r.chunks[0]|)
  {
    var c := r.chunks[0];
    var b := start + |c|;
    assert c <= s[start..] && s[start..b] == c;
    assert NoBlankLine(c);
    if r.separators != [] {
      var t := r.separators[0];
      assert s[start..] == c + t + Interleave(r.chunks[1..], r.separators[1..]);
      assert s[b] == t[0];
      assert t[0] == '\n' ==> EndsClean(c, t);
    }
    assert c != [] ==> s[b - 1] == c[|c| - 1];
    forall q | start <= q < b
      ensures MatchLen(s, q) == 0
    {
      NoMatchStartsInSpan(s, start, b, q);
    }
  }

  /** Right after the first chunk, the regex matches exactly the first separator, and the
      rest of the text is the rest of the decomposition. */
  lemma MatchAfterFirstChunk(s: string, start: nat, r: Pieces)
    requires start <= |s| && LeftmostGreedy(r) && Interleave(r.chunks, r.separators) == s[start..]
    requires |r.separators| > 0
    ensures var b := start + |r.chunks[0]|;
      && b < |s| && s[start..b] == r.chunks[0]
      && MatchLen(s, b) == |r.separators[0]|
      && s[b..b + |r.separators[0]|] == r.separators[0]
      && s[b + |r.separators[0]|..] == Interleave(r.chunks[1..], r.separators[1..])
  {
    var c := r.chunks[0];
    var t := r.separators[0];
    var b := start + |c|;
    var after := Interleave(r.chunks[1..], r.separators[1..]);
    var u := s[start..];
    assert u == c + t + after;
    assert u[..|c|] == c && u[|c|..|c| + |t|] == t && u[|c| + |t|..] == after;
    assert s[start..b] == u[..|c|] && s[b..b + |t|] == u[|c|..|c| + |t|] && s[b + |t|..] == u[|c| + |t|..];
    assert IsSeparator(t);
    assert StartsClean(after);
    if b + |t| < |s| {
      assert s[b + |t|] == after[0];
    }
    MatchLenOfSeparator(s, b, t);
  }

  /** The search moves past a span where no match begins without changing its result. */
  lemma {:induction false} ScanSkips(s: string, start: nat, p: nat, q: nat)
    requires start <= p <= q <= |s| && NoMatchIn(s, p, q)
    ensures Scan(s, start, p) == Scan(s, start, q)
    decreases q - p
  {
    if p < q {
      assert MatchLen(s, p) == 0;
      ScanSkips(s, start, p + 1, q);
    }
  }

  /** A decomposition with a single chunk is what the search finds: no match anywhere. */
  lemma ScanOfLastChunk(s: string, start: nat, r: Pieces)
    requires start <= |s| && LeftmostGreedy(r) && Interleave(r.chunks, r.separators) == s[start..]
    requires r.separators == []
    ensures Scan(s, start, start) == r
  {
    NoMatchInFirstChunk(s, start, r);
    ScanSkips(s, start, start, |s|);
    assert r.chunks == [s[start..]];
  }

  /** The search passes the first chunk, removes the first separator and starts over on
      the rest of the decomposition. */
  lemma ScanAtFirstSeparator(s: string, start: nat, r: Pieces)
    requires start <= |s| && LeftmostGreedy(r) && Interleave(r.chunks, r.separators) == s[start..]
    requires |r.separators| > 0
    ensures var next := start + |r.chunks[0]| + |r.separators[0]|;
      && next <= |s|
      && Scan(s, start, start) == Cons(r.chunks[0], r.separators[0], Scan(s, next, next))
      && LeftmostGreedy(Pieces(r.chunks[1..], r.separators[1..]))
      && Interleave(r.chunks[1..], r.separators[1..]) == s[next..]
  {
    NoMatchInFirstChunk(s, start, r);
    ScanSkips(s, start, start, start + |r.chunks[0]|);
    MatchAfterFirstChunk(s, start, r);
    TailIsLeftmostGreedy(r);
  }

  /** A leftmost, greedy decomposition of the text from `start` is the one the search
      finds from there. */
  lemma {:induction false} ScanIsUnique(s: string, start: nat, r: Pieces)
    requires start <= |s| && LeftmostGreedy(r) && Interleave(r.chunks, r.separators) == s[start..]
    ensures Scan(s, start, start) == r
    decreases |r.separators|
  {
    if r.separators == [] {
      ScanOfLastChunk(s, start, r);
    } else {
      var tail := Pieces(r.chunks[1..], r.separators[1..]);
      var next := start + |r.chunks[0]| + |r.separators[0]|;
      ScanAtFirstSeparator(s, start, r);
      ScanIsUnique(s, next, tail);
      assert [r.chunks[0]] + tail.chunks == r.chunks;
      assert [r.separators[0]] + tail.separators == r.separators;
    }
  }

  /** `Split`'s contract pins down its result: the one decomposition of the text into
      chunks and maximal separators with no match left inside a chunk is `Split(text)`. */
  lemma SplitIsUnique(text: string, r: Pieces)
    requires LeftmostGreedy(r) && Interleave(r.chunks, r.separators) == text
    ensures r == Split(text)
  {
    assert text[0..] == text;
    ScanIsUnique(text, 0, r);
  }

  /** A text that begins with a separator yields an empty first chunk. */
  lemma LeadingSeparator(text: string)
    requires |text| > 0 && MatchLen(text, 0) > 0
    ensures Split(text).chunks[0] == []
  {
    assert text[0..] == text;
    var m := MatchLen(text, 0);
    assert Scan(text, 0, 0) == Pieces([text[0..0]] + Scan(text, m, m).chunks,
                                      [text[0..m]] + Scan(text, m, m).separators);
  }

  /** A text that ends with a blank line (two `\n`) yields an empty last chunk. */
  lemma TrailingSeparator(text: string)
    requires |text| >= 2 && text[|text| - 2] == '\n' && text[|text| - 1] == '\n'
    ensures var chunks := Split(text).chunks; chunks[|chunks| - 1] == []
  {
    var r := Split(text);
    var n := |r.chunks| - 1;
    SuffixOfInterleave(r.chunks, r.separators);
  }

  /** `\r\n\r\n` is not a separator: a Windows blank line does not split. */
  lemma WindowsBlankLineDoesNotSplit()
    ensures Split("a\r\n\r\nb").chunks == ["a\r\n\r\nb"]
  {
    var s := "a\r\n\r\nb";
    assert MatchLen(s, 0) == 0 && MatchLen(s, 1) == 0 && MatchLen(s, 2) == 0;
    assert MatchLen(s, 3) == 0 && MatchLen(s, 4) == 0 && MatchLen(s, 5) == 0;
    assert s[0..] == s;
  }

  // ------------------------------------------------------------------ records

  /** The panic message of `chunks[i]` with `i` out of range. */
  function IndexPanic(len: nat, index: nat): string
  {
    "index out of bounds: the len is " + DecimalString(len) + " but the index is " + DecimalString(index)
  }

  /** `response.data.iter().enumerate().map(|(i, data)| EmbeddingRecord { id: i.to_string(),
      values: data.embedding, metadata: { text: chunks[i] } }).collect()`: one record per
      returned embedding, in response order; it panics on the first embedding that has
      no chunk at its position. */
  function MakeRecords(chunks: seq<string>, data: seq<Embedding>): (r: Checked<seq<EmbeddingRecord>>)
    ensures r.Value? <==> |data| <= |chunks|
    ensures r.Panicked? ==> r.reason == IndexPanic(|chunks|, |chunks|)
    ensures r.Value? ==> |r.value| == |data|
    ensures r.Value? ==>
      forall i :: 0 <= i < |data| ==>
        r.value[i].values == data[i] && r.value[i].text == chunks[i] && r.value[i].id == DecimalString(i)
  {
    if |data| > |chunks| then
      Panicked(IndexPanic(|chunks|, |chunks|))
    else
      Value(seq(|data|, i requires 0 <= i < |data| =>
        EmbeddingRecord(DecimalString(i), data[i], chunks[i])))
  }

  /** Positional ids are unique within a batch, and each one reads back as its position. */
  lemma RecordIdsIdentifyPositions(chunks: seq<string>, data: seq<Embedding>)
    requires |data| <= |chunks|
    ensures var records := MakeRecords(chunks, data).value;
      && (forall i :: 0 <= i < |records| ==> FoldDigits(records[i].id, 0) == i)
      && (forall i, j :: 0 <= i < j < |records| ==> records[i].id != records[j].id)
  {
    var records := MakeRecords(chunks, data).value;
    forall i | 0 <= i < |records| ensures FoldDigits(records[i].id, 0) == i {
      FoldDecimalString(i);
    }
  }

  /** When the service returns one embedding per chunk, the records' texts, put back
      together with the separators, are the source text. */
  lemma RecordsRebuildText(text: string, data: seq<Embedding>)
    requires |data| == |Split(text).chunks|
    ensures MakeRecords(Split(text).chunks, data).Value?
    ensures var records := MakeRecords(Split(text).chunks, data).value;
      Interleave(seq(|records|, i requires 0 <= i < |records| => records[i].text),
                 Split(text).separators) == text
  {
    var records := MakeRecords(Split(text).chunks, data).value;
    assert seq(|records|, i requires 0 <= i < |records| => records[i].text) == Split(text).chunks;
  }
}
