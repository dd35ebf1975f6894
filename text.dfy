/** The Python string primitives the question parser relies on: `str.strip()`,
    `str.startswith`, slicing from an offset, `str.split(sep)`,
    `str.split(sep, 1)` and `str.upper()` / `str.lower()`. Strings are
    sequences of Unicode scalar values; the lone surrogates a Python 3
    string may also hold are not modelled. */
module Text {

  /** Python's `str.isspace()` on one code point: exactly the characters that
      `str.strip()` without arguments removes. */
  predicate IsSpace(c: char) {
    var n := c as int;
    (0x09 <= n <= 0x0D) || (0x1C <= n <= 0x20) || n == 0x85 || n == 0xA0 ||
    n == 0x1680 || (0x2000 <= n <= 0x200A) || n == 0x2028 || n == 0x2029 ||
    n == 0x202F || n == 0x205F || n == 0x3000
  }

  /** `s.lstrip()`: the longest suffix of `s` that does not start with whitespace. */
  function TrimLeft(s: string): (r: string)
    ensures |r| <= |s| && r == s[|s| - |r|..]
    ensures forall i :: 0 <= i < |s| - |r| ==> IsSpace(s[i])
    ensures r != [] ==> !IsSpace(r[0])
  {
    if s != [] && IsSpace(s[0]) then TrimLeft(s[1..]) else s
  }

  /** `s.rstrip()`: the longest prefix of `s` that does not end with whitespace. */
  function TrimRight(s: string): (r: string)
    ensures |r| <= |s| && r == s[..|r|]
    ensures forall i :: |r| <= i < |s| ==> IsSpace(s[i])
    ensures r != [] ==> !IsSpace(r[|r| - 1])
  {
    if s != [] && IsSpace(s[|s| - 1]) then TrimRight(s[..|s| - 1]) else s
  }

  /** `s` has no whitespace at either end. */
  predicate Trimmed(s: string) {
    s != [] ==> !IsSpace(s[0]) && !IsSpace(s[|s| - 1])
  }

  /** `s.strip()`. */
  function Strip(s: string): (r: string)
    ensures |r| <= |s| && Trimmed(r)
    ensures r == [] <==> forall i :: 0 <= i < |s| ==> IsSpace(s[i])
  {
    TrimRight(TrimLeft(s))
  }

  /** The characters `Strip` removes are whitespace, and what it keeps is one
      contiguous slice of its input. */
  lemma StripBounds(s: string) returns (k: nat)
    ensures k + |Strip(s)| <= |s| && Strip(s) == s[k..k + |Strip(s)|]
    ensures forall i :: 0 <= i < k ==> IsSpace(s[i])
    ensures forall i :: k + |Strip(s)| <= i < |s| ==> IsSpace(s[i])
  {
    var t := TrimLeft(s);
    k := |s| - |t|;
    var r := TrimRight(t);
    SuffixPrefix(s, k, |r|);
    SuffixSpaces(s, k, |r|);
  }

  lemma SuffixPrefix(s: string, k: nat, n: nat)
    requires k + n <= |s|
    ensures s[k..][..n] == s[k..k + n]
  {
  }

  lemma SuffixSpaces(s: string, k: nat, n: nat)
    requires k + n <= |s|
    requires forall i :: n <= i < |s[k..]| ==> IsSpace(s[k..][i])
    ensures forall i :: k + n <= i < |s| ==> IsSpace(s[i])
  {
    forall i | k + n <= i < |s| ensures IsSpace(s[i]) {
      assert s[i] == s[k..][i - k];
    }
  }

  /** A character absent from a text is absent from its strip. */
  lemma StripKeepsOut(s: string, c: char)
    requires c !in s
    ensures c !in Strip(s)
  {
    var k := StripBounds(s);
    var t := Strip(s);
    forall i | 0 <= i < |t| ensures t[i] != c {
      assert t[i] == s[k + i];
    }
  }

  /** A string with no whitespace at either end is its own strip; in
      particular stripping twice is stripping once. */
  lemma StripTrimmed(s: string)
    requires Trimmed(s)
    ensures Strip(s) == s
  {
  }

  /** `s.count(c)`: the number of occurrences of `c` in `s`. */
  function Count(s: string, c: char): nat
    decreases |s|
  {
    if s == [] then 0 else (if s[0] == c then 1 else 0) + Count(s[1..], c)
  }

  /** Counting distributes over concatenation. */
  lemma {:induction false} CountAppend(a: string, b: string, c: char)
    ensures Count(a + b, c) == Count(a, c) + Count(b, c)
    decreases |a|
  {
    if a == [] {
      assert a + b == b;
    } else {
      CountAppend(a[1..], b, c);
      assert (a + b)[1..] == a[1..] + b;
    }
  }

  /** `c` occurs in `s` exactly when its count is positive. */
  lemma {:induction false} CountZero(s: string, c: char)
    ensures Count(s, c) == 0 <==> c !in s
    decreases |s|
  {
    if s != [] {
      CountZero(s[1..], c);
      assert s == [s[0]] + s[1..];
    }
  }

  /** A slice has no more occurrences of `c` than the whole string. */
  lemma SliceCount(s: string, i: nat, j: nat, c: char)
    requires i <= j <= |s|
    ensures Count(s[i..j], c) <= Count(s, c)
  {
    assert s == s[..i] + s[i..j] + s[j..];
    CountAppend(s[..i] + s[i..j], s[j..], c);
    CountAppend(s[..i], s[i..j], c);
  }

  /** Leading whitespace does not change the strip. */
  lemma StripLeadingSpace(c: char, t: string)
    requires IsSpace(c)
    ensures Strip([c] + t) == Strip(t)
  {
    assert ([c] + t)[1..] == t;
  }

  /** Dropping a prefix never adds an occurrence of `c`. */
  lemma DropCount(s: string, n: nat, c: char)
    ensures Count(Drop(s, n), c) <= Count(s, c)
  {
    var rest := Drop(s, n);
    SliceCount(s, |s| - |rest|, |s|, c);
    assert s[|s| - |rest|..|s|] == rest;
  }

  /** Trailing whitespace after a stripped, non-empty string is removed. */
  lemma StripTrailingSpace(t: string, c: char)
    requires t != [] && Trimmed(t) && IsSpace(c)
    ensures Strip(t + [c]) == t
  {
    assert (t + [c])[0] == t[0];
    assert (t + [c])[..|t|] == t;
  }

  /** `Strip` only removes characters, so it never adds an occurrence of `c`. */
  lemma StripCount(s: string, c: char)
    ensures Count(Strip(s), c) <= Count(s, c)
  {
    var t := TrimLeft(s);
    SuffixCount(s, t, c);
    PrefixCount(t, TrimRight(t), c);
  }

  lemma SuffixCount(s: string, t: string, c: char)
    requires |t| <= |s| && t == s[|s| - |t|..]
    ensures Count(t, c) <= Count(s, c)
  {
    SliceCount(s, |s| - |t|, |s|, c);
    assert s[|s| - |t|..|s|] == t;
  }

  lemma PrefixCount(t: string, r: string, c: char)
    requires |r| <= |t| && r == t[..|r|]
    ensures Count(r, c) <= Count(t, c)
  {
    SliceCount(t, 0, |r|, c);
    assert t[0..|r|] == r;
  }

  /** `s.startswith(prefix)`. */
  predicate StartsWith(s: string, prefix: string) {
    |prefix| <= |s| && s[..|prefix|] == prefix
  }

  /** The Python slice `s[n:]`, which is empty when `n` is past the end. */
  function Drop(s: string, n: nat): (r: string)
    ensures |r| == if n <= |s| then |s| - n else 0
    ensures r == s[|s| - |r|..]
  {
    if n <= |s| then s[n..] else []
  }

  /** Dropping a prefix's length leaves what follows it. */
  lemma DropAfter(a: string, b: string)
    ensures Drop(a + b, |a|) == b
  {
    assert (a + b)[|a|..] == b;
  }

  /** `s.split(sep)`: the pieces of `s` between occurrences of `sep`; there is
      always one more piece than occurrences, none contains `sep`, and the
      last piece is the text after the last `sep` (all of `s` if there is none). */
  function Split(s: string, sep: char): (parts: seq<string>)
    ensures |parts| == Count(s, sep) + 1
    ensures forall i :: 0 <= i < |parts| ==> sep !in parts[i]
    decreases |s|
  {
    if s == [] then [[]]
    else
      var rest := Split(s[1..], sep);
      if s[0] == sep then [[]] + rest
      else
        var first := [s[0]] + rest[0];
        assert sep !in first;
        [first] + rest[1..]
  }

  /** `last` is a suffix of `s` that is all of `s` or follows a `sep`. */
  predicate EndPiece(s: string, last: string, sep: char) {
    |last| <= |s| && last == s[|s| - |last|..] &&
    (|last| < |s| ==> s[|s| - |last| - 1] == sep)
  }

  function LastPiece(parts: seq<string>): string
    requires parts != []
  {
    parts[|parts| - 1]
  }

  /** The last piece of `Split` is the text after the last `sep`, or all of
      `s` when `sep` does not occur. */
  lemma {:induction false} SplitLast(s: string, sep: char)
    ensures EndPiece(s, LastPiece(Split(s, sep)), sep)
    decreases |s|
  {
    if s != [] {
      SplitLast(s[1..], sep);
      if s[0] == sep {
        SplitLastAfterSep(s, sep);
      } else if |Split(s[1..], sep)| == 1 {
        SplitLastWhole(s, sep);
      } else {
        SplitLastLater(s, sep);
      }
    }
  }

  lemma SplitLastAfterSep(s: string, sep: char)
    requires s != [] && s[0] == sep
    requires EndPiece(s[1..], LastPiece(Split(s[1..], sep)), sep)
    ensures EndPiece(s, LastPiece(Split(s, sep)), sep)
  {
    var rest := Split(s[1..], sep);
    assert Split(s, sep) == [[]] + rest;
    assert LastPiece(Split(s, sep)) == LastPiece(rest);
  }

  lemma SplitLastWhole(s: string, sep: char)
    requires s != [] && s[0] != sep && |Split(s[1..], sep)| == 1
    ensures EndPiece(s, LastPiece(Split(s, sep)), sep)
  {
    var rest := Split(s[1..], sep);
    CountZero(s[1..], sep);
    SplitNoSeparator(s[1..], sep);
    assert Split(s, sep) == [[s[0]] + rest[0]];
    assert rest[0] == s[1..];
    assert LastPiece(Split(s, sep)) == s;
  }

  lemma SplitLastLater(s: string, sep: char)
    requires s != [] && s[0] != sep && |Split(s[1..], sep)| > 1
    requires EndPiece(s[1..], LastPiece(Split(s[1..], sep)), sep)
    ensures EndPiece(s, LastPiece(Split(s, sep)), sep)
  {
    var rest := Split(s[1..], sep);
    var tail := LastPiece(rest);
    CountZero(s[1..], sep);
    assert Split(s, sep) == [[s[0]] + rest[0]] + rest[1..];
    assert LastPiece(Split(s, sep)) == tail;
    assert |tail| < |s| - 1;
    assert s[|s| - |tail| - 1] == s[1..][|s| - 1 - |tail| - 1];
  }

  /** `sep.join(parts)`, the inverse of `Split`. */
  function Join(parts: seq<string>, sep: char): string
    requires parts != []
  {
    if |parts| == 1 then parts[0] else parts[0] + [sep] + Join(parts[1..], sep)
  }

  /** Splitting and joining on the same separator gives back the string. */
  lemma {:induction false} JoinSplit(s: string, sep: char)
    ensures Join(Split(s, sep), sep) == s
    decreases |s|
  {
    if sep !in s {
      SplitNoSeparator(s, sep);
    } else {
      var b := AfterFirst(s, sep);
      var a := s[..|s| - |b| - 1];
      assert s == a + [sep] + b;
      SplitAfterPiece(a, sep, b);
      JoinSplit(b, sep);
      var parts := [a] + Split(b, sep);
      assert parts[1..] == Split(b, sep);
    }
  }

  /** A piece without `sep`, followed by `sep`, splits off as the first part. */
  lemma {:induction false} SplitAfterPiece(a: string, sep: char, b: string)
    requires sep !in a
    ensures Split(a + [sep] + b, sep) == [a] + Split(b, sep)
    decreases |a|
  {
    if a == [] {
      assert a + [sep] + b == [sep] + b;
      assert ([sep] + b)[1..] == b;
    } else {
      SplitAfterPiece(a[1..], sep, b);
      assert (a + [sep] + b)[1..] == a[1..] + [sep] + b;
      assert [a[0]] + a[1..] == a;
    }
  }

  /** A string without `sep` splits into itself alone. */
  lemma {:induction false} SplitNoSeparator(a: string, sep: char)
    requires sep !in a
    ensures Split(a, sep) == [a]
    decreases |a|
  {
    if a != [] {
      SplitNoSeparator(a[1..], sep);
      assert [a[0]] + a[1..] == a;
    }
  }

  /** `s.split(sep)[-1]`: the text after the last `sep`. */
  function LastField(s: string, sep: char): (r: string)
    ensures |r| <= |s| && r == s[|s| - |r|..] && sep !in r
    ensures |r| < |s| ==> s[|s| - |r| - 1] == sep
  {
    var parts := Split(s, sep);
    SplitLast(s, sep);
    assert sep !in parts[|parts| - 1];
    LastPiece(parts)
  }

  /** `s.split(sep, 1)[1]`: the text after the first `sep`. */
  function AfterFirst(s: string, sep: char): (r: string)
    requires sep in s
    ensures |r| < |s| && r == s[|s| - |r|..]
    ensures s[|s| - |r| - 1] == sep && sep !in s[..|s| - |r| - 1]
  {
    if s[0] == sep then s[1..]
    else
      assert sep in s[1..] by { assert s == [s[0]] + s[1..]; }
      var r := AfterFirst(s[1..], sep);
      AfterFirstCons(s, sep, r);
      r
  }

  /** `r` is what follows the first `sep` of `s`. */
  predicate FollowsFirst(s: string, r: string, sep: char) {
    |r| < |s| && r == s[|s| - |r|..] &&
    s[|s| - |r| - 1] == sep && sep !in s[..|s| - |r| - 1]
  }

  /** A first character other than `sep` does not move the first `sep`. */
  lemma AfterFirstCons(s: string, sep: char, r: string)
    requires s != [] && s[0] != sep && FollowsFirst(s[1..], r, sep)
    ensures FollowsFirst(s, r, sep)
  {
    assert s[..|s| - |r| - 1] == [s[0]] + s[1..][..|s| - 1 - |r| - 1];
  }

  /** The text after the first `sep` of `a + [sep] + b`, where `a` has no
      `sep`, is `b`. */
  lemma AfterFirstPiece(a: string, sep: char, b: string)
    requires sep !in a
    ensures AfterFirst(a + [sep] + b, sep) == b
  {
    var s := a + [sep] + b;
    var r := AfterFirst(s, sep);
    var k := |s| - |r| - 1;
    assert s[..|a|] == a;
    assert k <= |a| ==> s[k] == s[..|a| + 1][k];
    assert k >= |a| ==> s[|a|] == s[..k + 1][|a|];
    assert s[|a| + 1..] == b;
  }

  /** `c.upper()` for ASCII letters; every other character is left alone. */
  function UpperChar(c: char): char {
    if 'a' <= c <= 'z' then (c as int - 32) as char else c
  }

  /** `c.lower()` for ASCII letters; every other character is left alone. */
  function LowerChar(c: char): char {
    if 'A' <= c <= 'Z' then (c as int + 32) as char else c
  }

  /** `s.upper()`, character by character. */
  function Upper(s: string): (r: string)
    ensures |r| == |s| && forall i :: 0 <= i < |s| ==> r[i] == UpperChar(s[i])
    ensures forall i :: 0 <= i < |r| ==> !('a' <= r[i] <= 'z')
  {
    if s == [] then [] else [UpperChar(s[0])] + Upper(s[1..])
  }

  /** Upper-casing never introduces a character that is not an upper-case
      letter. */
  lemma UpperKeepsOut(s: string, c: char)
    requires c !in s && !('A' <= c <= 'Z')
    ensures c !in Upper(s)
  {
    var r := Upper(s);
    forall i | 0 <= i < |r| ensures r[i] != c {
      assert r[i] == UpperChar(s[i]);
    }
  }

  /** `s.lower()`, character by character. */
  function Lower(s: string): (r: string)
    ensures |r| == |s| && forall i :: 0 <= i < |s| ==> r[i] == LowerChar(s[i])
    ensures forall i :: 0 <= i < |r| ==> !('A' <= r[i] <= 'Z')
  {
    if s == [] then [] else [LowerChar(s[0])] + Lower(s[1..])
  }

  /** `s.replace(from, to)` for one-character `from` and `to`. */
  function ReplaceChar(s: string, from: char, to: char): (r: string)
    ensures |r| == |s| && forall i :: 0 <= i < |s| ==> r[i] == if s[i] == from then to else s[i]
  {
    if s == [] then []
    else [if s[0] == from then to else s[0]] + ReplaceChar(s[1..], from, to)
  }
}
