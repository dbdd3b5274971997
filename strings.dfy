/**
 * The few Python `str` operations the scripts rely on, over `seq<char>`:
 * `str.replace` with a one-character pattern, `str.isdigit` on ASCII digits,
 * `str.strip`, `str.split` with a one-character separator and the `in`
 * substring test.
 */
module Strings {

  predicate IsDigit(c: char) {
    '0' <= c <= '9'
  }

  /** The characters Python's `str.isspace` accepts, which `str.strip()` removes. */
  predicate IsSpace(c: char) {
    c == ' ' || c == '\t' || c == '\n' || c == '\r' || c == '\U{0B}' || c == '\U{0C}'
    || ('\U{1C}' <= c <= '\U{1F}') || c == '\U{85}' || c == '\U{A0}' || c == '\U{1680}'
    || ('\U{2000}' <= c <= '\U{200A}') || c == '\U{2028}' || c == '\U{2029}'
    || c == '\U{202F}' || c == '\U{205F}' || c == '\U{3000}'
  }

  /** Number of occurrences of `c` in `s`. */
  function Count(s: string, c: char): nat {
    if s == [] then 0 else (if s[0] == c then 1 else 0) + Count(s[1..], c)
  }

  /** `s.replace(c, rep)`: every occurrence of the character `c` becomes `rep`. */
  function Replace(s: string, c: char, rep: string): (r: string)
    ensures forall x :: x in r <==> (x in s && x != c) || (c in s && x in rep)
  {
    if s == [] then []
    else
      assert s == [s[0]] + s[1..];
      (if s[0] == c then rep else [s[0]]) + Replace(s[1..], c, rep)
  }

  /** `str.replace` works character by character, so it distributes over concatenation. */
  lemma {:induction false} ReplaceAppend(a: string, b: string, c: char, rep: string)
    ensures Replace(a + b, c, rep) == Replace(a, c, rep) + Replace(b, c, rep)
  {
    if a == [] {
      assert a + b == b;
    } else {
      var head := if a[0] == c then rep else [a[0]];
      assert (a + b)[0] == a[0];
      assert (a + b)[1..] == a[1..] + b;
      ReplaceAppend(a[1..], b, c, rep);
      calc {
        Replace(a + b, c, rep);
        head + Replace(a[1..] + b, c, rep);
        head + (Replace(a[1..], c, rep) + Replace(b, c, rep));
        (head + Replace(a[1..], c, rep)) + Replace(b, c, rep);
        { assert Replace(a, c, rep) == head + Replace(a[1..], c, rep); }
        Replace(a, c, rep) + Replace(b, c, rep);
      }
    }
  }

  /** Replacing a character that does not occur changes nothing. */
  lemma {:induction false} ReplaceAbsent(s: string, c: char, rep: string)
    requires c !in s
    ensures Replace(s, c, rep) == s
  {
    if s != [] {
      ReplaceAbsent(s[1..], c, rep);
      assert s == [s[0]] + s[1..];
    }
  }

  /** `t in s` for strings: `t` occurs as a contiguous piece of `s`. */
  predicate IsSubstring(t: string, s: string)
    decreases |s|
  {
    t <= s || (s != [] && IsSubstring(t, s[1..]))
  }

  /** `s.lstrip()`: the longest suffix of `s` that does not start with whitespace. */
  function StripStart(s: string): (r: string)
    ensures |r| <= |s| && r == s[|s| - |r|..]
    ensures r == [] || !IsSpace(r[0])
    ensures forall i :: 0 <= i < |s| - |r| ==> IsSpace(s[i])
  {
    if s != [] && IsSpace(s[0]) then StripStart(s[1..]) else s
  }

  /** `s.rstrip()`: the longest prefix of `s` that does not end with whitespace. */
  function StripEnd(s: string): (r: string)
    ensures |r| <= |s| && r == s[..|r|]
    ensures r == [] || !IsSpace(r[|r| - 1])
    ensures forall i :: |r| <= i < |s| ==> IsSpace(s[i])
  {
    if s != [] && IsSpace(s[|s| - 1]) then StripEnd(s[..|s| - 1]) else s
  }

  predicate IsStripped(s: string) {
    s == [] || (!IsSpace(s[0]) && !IsSpace(s[|s| - 1]))
  }

  /** A slice holds only characters of the whole. */
  lemma SliceMembers(s: string, lo: nat, hi: nat)
    requires lo <= hi <= |s|
    ensures forall x :: x in s[lo..hi] ==> x in s
  {
    forall x | x in s[lo..hi]
      ensures x in s
    {
      var i :| 0 <= i < hi - lo && s[lo..hi][i] == x;
      assert s[lo + i] == x;
    }
  }

  /** `s.strip()`: whitespace removed from both ends, and nothing else. */
  function Strip(s: string): (r: string)
    ensures IsStripped(r)
    ensures |r| <= |s| && forall x :: x in r ==> x in s
  {
    var t := StripStart(s);
    var r := StripEnd(t);
    SliceMembers(t, 0, |r|);
    SliceMembers(s, |s| - |t|, |s|);
    if r != [] then
      assert r[0] == t[0];
      r
    else r
  }

  /** `s.split(sep)` with a one-character separator: the pieces between separators. */
  function Split(s: string, sep: char): (r: seq<string>)
    ensures |r| == Count(s, sep) + 1
    ensures forall i :: 0 <= i < |r| ==> sep !in r[i]
  {
    if s == [] then [[]]
    else
      var rest := Split(s[1..], sep);
      if s[0] == sep then [[]] + rest
      else [[s[0]] + rest[0]] + rest[1..]
  }

  /** `sep.join(pieces)`. */
  function Join(pieces: seq<string>, sep: char): string
    requires |pieces| > 0
  {
    if |pieces| == 1 then pieces[0] else pieces[0] + [sep] + Join(pieces[1..], sep)
  }

  /** Splitting loses nothing: joining the pieces back gives the original text. */
  lemma {:induction false} SplitJoin(s: string, sep: char)
    ensures Join(Split(s, sep), sep) == s
  {
    if s != [] {
      var rest := Split(s[1..], sep);
      SplitJoin(s[1..], sep);
      assert s == [s[0]] + s[1..];
      if s[0] != sep && |rest| > 1 {
        assert ([[s[0]] + rest[0]] + rest[1..])[1..] == rest[1..];
      } else if s[0] == sep {
        assert ([[]] + rest)[1..] == rest;
      }
    }
  }
}
