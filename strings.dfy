/** The pieces of Rust's `str` that the core relies on: `trim`, the byte length `len`
    of the UTF-8 encoding, the byte-indexed slice `&s[..n]` and `join`.
    A Rust `String` is modelled as the sequence of its Unicode scalar values
    (`seq<char>`); its byte length is the sum of the UTF-8 widths of its characters. */
module Strings {
  import opened Outcomes

  /** Rust's `char::is_whitespace`: the Unicode White_Space property. */
  predicate IsWhitespace(c: char) {
    var u := c as int;
    (0x9 <= u <= 0xD) || u == 0x20 || u == 0x85 || u == 0xA0 || u == 0x1680 ||
    (0x2000 <= u <= 0x200A) || u == 0x2028 || u == 0x2029 || u == 0x202F ||
    u == 0x205F || u == 0x3000
  }

  predicate AllWhitespace(s: string) {
    forall i :: 0 <= i < |s| ==> IsWhitespace(s[i])
  }

  /** `str::trim_start`. */
  function TrimStart(s: string): string
  {
    if s != [] && IsWhitespace(s[0]) then TrimStart(s[1..]) else s
  }

  /** `str::trim_end`. */
  function TrimEnd(s: string): string
  {
    if s != [] && IsWhitespace(s[|s| - 1]) then TrimEnd(s[..|s| - 1]) else s
  }

  /** `str::trim`. */
  function Trim(s: string): string
  {
    TrimEnd(TrimStart(s))
  }

  /** `trim_start` drops the leading whitespace and nothing else. */
  lemma {:induction false} TrimStartFacts(s: string)
    ensures var r := TrimStart(s);
      && |r| <= |s| && r == s[|s| - |r|..]
      && (r == [] || !IsWhitespace(r[0]))
      && AllWhitespace(s[..|s| - |r|])
  {
    if s != [] && IsWhitespace(s[0]) {
      TrimStartFacts(s[1..]);
      var r := TrimStart(s[1..]);
      assert s[1..][|s| - 1 - |r|..] == s[|s| - |r|..];
      var dropped := s[..|s| - |r|];
      forall i | 0 <= i < |dropped| ensures IsWhitespace(dropped[i]) {
        if i > 0 { assert dropped[i] == s[1..][..|s| - 1 - |r|][i - 1]; }
      }
    }
  }

  /** `trim_end` drops the trailing whitespace and nothing else. */
  lemma {:induction false} TrimEndFacts(s: string)
    ensures var r := TrimEnd(s);
      && |r| <= |s| && r == s[..|r|]
      && (r == [] || !IsWhitespace(r[|r| - 1]))
      && AllWhitespace(s[|r|..])
  {
    if s != [] && IsWhitespace(s[|s| - 1]) {
      TrimEndFacts(s[..|s| - 1]);
      var r := TrimEnd(s[..|s| - 1]);
      assert s[..|s| - 1][..|r|] == s[..|r|];
      forall i | 0 <= i < |s| - |r| ensures IsWhitespace(s[|r|..][i]) {
        if i < |s| - 1 - |r| { assert s[|r|..][i] == s[..|s| - 1][|r|..][i]; }
      }
    }
  }

  /** What `trim` keeps is a contiguous slice of its input, neither end of which is
      whitespace, and everything it drops is whitespace. */
  lemma TrimIsSlice(s: string)
    ensures exists i, j :: 0 <= i <= j <= |s| && Trim(s) == s[i..j] &&
                           AllWhitespace(s[..i]) && AllWhitespace(s[j..])
    ensures Trim(s) == [] || (!IsWhitespace(Trim(s)[0]) && !IsWhitespace(Trim(s)[|Trim(s)| - 1]))
  {
    TrimStartFacts(s);
    var t := TrimStart(s);
    TrimEndFacts(t);
    var i := |s| - |t|;
    var r := TrimEnd(t);
    var j := i + |r|;
    assert r == s[i..j];
    assert s[j..] == t[|r|..];
    if r != [] {
      assert r[0] == t[0];
    }
  }

  /** `trim(...).is_empty()` holds exactly when the string is nothing but whitespace. */
  lemma TrimEmptyIff(s: string)
    ensures Trim(s) == [] <==> AllWhitespace(s)
  {
    TrimStartFacts(s);
    var t := TrimStart(s);
    TrimEndFacts(t);
    if Trim(s) == [] {
      assert t == [];
      assert s[..|s|] == s;
    }
  }

  /** Trimming twice is trimming once. */
  lemma TrimIdempotent(s: string)
    ensures Trim(Trim(s)) == Trim(s)
  {
    var r := Trim(s);
    TrimIsSlice(s);
    if r != [] {
      assert TrimStart(r) == r;
      assert TrimEnd(r) == r;
    }
  }

  // ---------------------------------------------------------------- UTF-8 lengths

  /** Number of bytes of the UTF-8 encoding of a Unicode scalar value. */
  function Utf8Width(c: char): (w: nat)
    ensures 1 <= w <= 4
    ensures w == 1 <==> (c as int) < 0x80
  {
    if (c as int) < 0x80 then 1
    else if (c as int) < 0x800 then 2
    else if (c as int) < 0x10000 then 3
    else 4
  }

  /** `str::len`: the byte length of the UTF-8 encoding. */
  function ByteLen(s: string): nat
  {
    if s == [] then 0 else Utf8Width(s[0]) + ByteLen(s[1..])
  }

  lemma {:induction false} ByteLenAppend(a: string, b: string)
    ensures ByteLen(a + b) == ByteLen(a) + ByteLen(b)
  {
    if a != [] {
      assert (a + b)[0] == a[0] && (a + b)[1..] == a[1..] + b;
      ByteLenAppend(a[1..], b);
    } else {
      assert a + b == b;
    }
  }

  /** Every character takes at least one byte, and exactly one when it is ASCII. */
  lemma {:induction false} ByteLenAtLeastLength(s: string)
    ensures ByteLen(s) >= |s|
    ensures ByteLen(s) == |s| <==> IsAscii(s)
  {
    if s != [] {
      ByteLenAtLeastLength(s[1..]);
      assert IsAscii(s) <==> (s[0] as int) < 0x80 && IsAscii(s[1..]) by {
        if (s[0] as int) < 0x80 && IsAscii(s[1..]) {
          forall i | 0 <= i < |s| ensures (s[i] as int) < 0x80 {
            if i > 0 { assert s[i] == s[1..][i - 1]; }
          }
        }
      }
    }
  }

  predicate IsAscii(s: string) {
    forall i :: 0 <= i < |s| ==> (s[i] as int) < 0x80
  }

  /** A longer character prefix has strictly more bytes. */
  lemma PrefixBytesStrictlyIncrease(s: string, a: nat, b: nat)
    requires a < b <= |s|
    ensures ByteLen(s[..a]) < ByteLen(s[..b])
  {
    assert s[..b] == s[..a] + s[a..b];
    ByteLenAppend(s[..a], s[a..b]);
    ByteLenAtLeastLength(s[a..b]);
  }

  /** The number of leading characters whose encodings fit in `budget` bytes. */
  function FitChars(s: string, budget: nat): (k: nat)
    ensures k <= |s| && ByteLen(s[..k]) <= budget
    ensures k < |s| ==> ByteLen(s[..k + 1]) > budget
  {
    if s == [] || Utf8Width(s[0]) > budget then
      assert s != [] ==> s[..1][1..] == [];
      0
    else
      var k' := FitChars(s[1..], budget - Utf8Width(s[0]));
      assert s[..k' + 1][1..] == s[1..][..k'];
      assert k' + 1 < |s| ==> s[..k' + 2][1..] == s[1..][..k' + 1];
      k' + 1
  }

  /** Byte offset `n` is a char boundary of `s`: some character prefix has exactly `n` bytes. */
  predicate IsCharBoundary(s: string, n: nat) {
    exists k :: 0 <= k <= |s| && ByteLen(s[..k]) == n
  }

  /** `&s[..n]` on a `str`: the first `n` bytes, which exist only when `n` does not
      exceed the length and falls on a character boundary; otherwise the slice panics. */
  function SliceToByte(s: string, n: nat): (r: Checked<string>)
    ensures r.Value? <==> n <= ByteLen(s) && IsCharBoundary(s, n)
    ensures r.Value? ==> r.value <= s && ByteLen(r.value) == n
  {
    var k := FitChars(s, n);
    if n <= ByteLen(s) && ByteLen(s[..k]) == n then
      Value(s[..k])
    else
      assert !IsCharBoundary(s, n) || n > ByteLen(s) by {
        if IsCharBoundary(s, n) {
          var j :| 0 <= j <= |s| && ByteLen(s[..j]) == n;
          if j < k { PrefixBytesStrictlyIncrease(s, j, k); }
          if k < j { PrefixBytesStrictlyIncrease(s, k + 1, j); }
          if k + 1 == j { }
        }
      }
      Panicked("byte index is not a char boundary")
  }

  /** In pure ASCII every byte offset up to the length is a character boundary. */
  lemma AsciiBoundary(s: string, n: nat)
    requires IsAscii(s) && n <= |s|
    ensures IsCharBoundary(s, n)
  {
    assert IsAscii(s[..n]);
    ByteLenAtLeastLength(s[..n]);
  }

  /** `slice.join(sep)` for string slices. */
  function Join(parts: seq<string>, sep: string): string
  {
    if parts == [] then []
    else if |parts| == 1 then parts[0]
    else parts[0] + sep + Join(parts[1..], sep)
  }
}
