/**
 String helpers shared by the scripts and the web routes: substring search
 (JavaScript `includes`, Python `in`), suffix tests, ASCII case mapping,
 Python's `strip`, and JavaScript's `split` on a single separator character.
 */
module Strings {

  /** `w` occurs in `s` starting at index `i`. */
  predicate OccursAt(s: string, w: string, i: nat) {
    i + |w| <= |s| && s[i..i + |w|] == w
  }

  /** Substring test: JavaScript's `s.includes(w)`, Python's `w in s`. */
  predicate Contains(s: string, w: string) {
    exists i: nat :: i <= |s| && OccursAt(s, w, i)
  }

  /** JavaScript's `s.endsWith(suffix)`. */
  predicate EndsWith(s: string, suffix: string) {
    |suffix| <= |s| && s[|s| - |suffix|..] == suffix
  }

  // ---------------------------------------------------------------------------
  // ASCII case mapping (non-ASCII characters are left unchanged)
  // ---------------------------------------------------------------------------

  function LowerChar(c: char): char {
    if 'A' <= c <= 'Z' then (c as int + 32) as char else c
  }

  function UpperChar(c: char): char {
    if 'a' <= c <= 'z' then (c as int - 32) as char else c
  }

  /** Python's `str.lower()` and Playwright's case folding, restricted to ASCII. */
  function Lower(s: string): (r: string)
    ensures |r| == |s|
    ensures forall i :: 0 <= i < |s| ==> r[i] == LowerChar(s[i])
  {
    seq(|s|, i requires 0 <= i < |s| => LowerChar(s[i]))
  }

  /** JavaScript's `String.prototype.toUpperCase()`, restricted to ASCII. */
  function Upper(s: string): (r: string)
    ensures |r| == |s|
    ensures forall i :: 0 <= i < |s| ==> r[i] == UpperChar(s[i])
  {
    seq(|s|, i requires 0 <= i < |s| => UpperChar(s[i]))
  }

  /** Upper-casing forgets any earlier lower-casing. */
  lemma UpperOfLower(s: string)
    ensures Upper(Lower(s)) == Upper(s)
  {
    forall i | 0 <= i < |s|
      ensures Upper(Lower(s))[i] == Upper(s)[i]
    {
      var c := s[i];
      if 'A' <= c <= 'Z' {
        assert LowerChar(c) as int == c as int + 32;
      }
    }
  }

  /** Lower-casing forgets any earlier upper-casing. */
  lemma LowerOfUpper(s: string)
    ensures Lower(Upper(s)) == Lower(s)
  {
    forall i | 0 <= i < |s|
      ensures Lower(Upper(s))[i] == Lower(s)[i]
    {
      var c := s[i];
      if 'a' <= c <= 'z' {
        assert UpperChar(c) as int == c as int - 32;
      }
    }
  }

  /** Case mapping commutes with taking a slice. */
  lemma UpperSlice(s: string, i: nat, j: nat)
    requires i <= j <= |s|
    ensures Upper(s[i..j]) == Upper(s)[i..j]
  {
  }

  /** An occurrence survives upper-casing both sides. */
  lemma {:induction false} ContainsUpper(s: string, w: string)
    requires Contains(s, w)
    ensures Contains(Upper(s), Upper(w))
  {
    var i: nat :| i <= |s| && OccursAt(s, w, i);
    UpperSlice(s, i, i + |w|);
    assert OccursAt(Upper(s), Upper(w), i);
  }

  /** Lower-casing commutes with taking a slice. */
  lemma LowerSlice(s: string, i: nat, j: nat)
    requires i <= j <= |s|
    ensures Lower(s[i..j]) == Lower(s)[i..j]
  {
  }

  /** An occurrence survives lower-casing both sides: a case-sensitive match
      is also a case-insensitive one. */
  lemma {:induction false} ContainsLower(s: string, w: string)
    requires Contains(s, w)
    ensures Contains(Lower(s), Lower(w))
  {
    var i: nat :| i <= |s| && OccursAt(s, w, i);
    LowerSlice(s, i, i + |w|);
    assert OccursAt(Lower(s), Lower(w), i);
  }

  // ---------------------------------------------------------------------------
  // Python's str.strip()
  // ---------------------------------------------------------------------------

  /** The ASCII characters Python's `str.isspace()` accepts. */
  predicate IsSpace(c: char) {
    c == ' ' || '\t' <= c <= '\r' || '\U{001C}' <= c <= '\U{001F}'
  }

  /** Index of the first non-space character, or `|s|`. */
  function StripStart(s: string): (a: nat)
    ensures a <= |s|
    ensures forall k :: 0 <= k < a ==> IsSpace(s[k])
    ensures a < |s| ==> !IsSpace(s[a])
    decreases |s|
  {
    if |s| > 0 && IsSpace(s[0]) then 1 + StripStart(s[1..]) else 0
  }

  /** One past the index of the last non-space character at or after `a`, or `a`. */
  function StripEnd(s: string, a: nat): (b: nat)
    requires a <= |s|
    ensures a <= b <= |s|
    ensures forall k :: b <= k < |s| ==> IsSpace(s[k])
    ensures a < b ==> !IsSpace(s[b - 1])
    decreases |s|
  {
    if |s| > a && IsSpace(s[|s| - 1]) then StripEnd(s[..|s| - 1], a) else |s|
  }

  /** Python's `s.strip()`: the slice between the leading and trailing whitespace. */
  function Strip(s: string): (r: string)
    ensures |r| <= |s|
    ensures r == s[StripStart(s)..StripEnd(s, StripStart(s))]
  {
    var a := StripStart(s);
    s[a..StripEnd(s, a)]
  }

  predicate NoSpace(w: string) {
    forall k :: 0 <= k < |w| ==> !IsSpace(w[k])
  }

  /** An occurrence inside a slice is an occurrence in the whole string. */
  lemma OccursInSlice(s: string, w: string, a: nat, b: nat, i: nat)
    requires a <= b <= |s|
    requires OccursAt(s[a..b], w, i)
    ensures OccursAt(s, w, a + i)
  {
    forall k | 0 <= k < |w|
      ensures s[a + i..a + i + |w|][k] == w[k]
    {
      assert s[a..b][i..i + |w|][k] == w[k];
    }
  }

  /** An occurrence lying inside a slice is an occurrence in the slice. */
  lemma OccursInSliceBack(s: string, w: string, a: nat, b: nat, i: nat)
    requires a <= i && i + |w| <= b <= |s|
    requires OccursAt(s, w, i)
    ensures OccursAt(s[a..b], w, i - a)
  {
    forall k | 0 <= k < |w|
      ensures s[a..b][i - a..i - a + |w|][k] == w[k]
    {
      assert s[i..i + |w|][k] == w[k];
    }
  }

  /** An occurrence of a space-free word in a lower-cased string avoids the
      leading and trailing whitespace. */
  lemma OccurrenceInsideStrip(s: string, w: string, i: nat)
    requires |w| > 0 && NoSpace(w)
    requires OccursAt(Lower(s), w, i)
    ensures StripStart(s) <= i
    ensures i + |w| <= StripEnd(s, StripStart(s))
  {
    var a := StripStart(s);
    var b := StripEnd(s, a);
    assert Lower(s)[i] == w[0];
    assert !IsSpace(s[i]);
    var e := i + |w| - 1;
    assert Lower(s)[e] == w[|w| - 1];
    assert !IsSpace(s[e]);
  }

  /**
   Stripping never changes whether a lower-cased string contains a
   non-empty word without whitespace: an occurrence of such a word can
   only lie inside the stripped part.
   */
  lemma {:induction false} StripKeepsWords(s: string, w: string)
    requires |w| > 0 && NoSpace(w)
    ensures Contains(Lower(Strip(s)), w) <==> Contains(Lower(s), w)
  {
    var a := StripStart(s);
    var b := StripEnd(s, a);
    var l := Lower(s);
    assert Lower(Strip(s)) == l[a..b];
    if Contains(l[a..b], w) {
      var i: nat :| i <= |l[a..b]| && OccursAt(l[a..b], w, i);
      OccursInSlice(l, w, a, b, i);
    }
    if Contains(l, w) {
      var i: nat :| i <= |l| && OccursAt(l, w, i);
      OccurrenceInsideStrip(s, w, i);
      OccursInSliceBack(l, w, a, b, i);
    }
  }

  // ---------------------------------------------------------------------------
  // JavaScript's s.split(sep) for a one-character separator
  // ---------------------------------------------------------------------------

  /** The inverse of `split`: `parts.join(sep)`. */
  function Join(parts: seq<string>, sep: char): string
    requires |parts| >= 1
    decreases |parts|
  {
    if |parts| == 1 then parts[0] else parts[0] + [sep] + Join(parts[1..], sep)
  }

  function FirstIndex(s: string, c: char): (k: nat)
    requires c in s
    ensures k < |s| && s[k] == c && c !in s[..k]
  {
    if s[0] == c then 0 else 1 + FirstIndex(s[1..], c)
  }

  /** JavaScript's `s.split(sep)`: the separator-free pieces between separators. */
  function Split(s: string, sep: char): (parts: seq<string>)
    ensures |parts| >= 1
    ensures sep in s ==> |parts| >= 2
    ensures forall i :: 0 <= i < |parts| ==> sep !in parts[i]
    decreases |s|
  {
    if sep !in s then [s]
    else
      var k := FirstIndex(s, sep);
      [s[..k]] + Split(s[k + 1..], sep)
  }

  /** Joining the pieces with the separator gives the string back. */
  lemma {:induction false} JoinSplit(s: string, sep: char)
    ensures Join(Split(s, sep), sep) == s
    decreases |s|
  {
    if sep in s {
      var k := FirstIndex(s, sep);
      JoinSplit(s[k + 1..], sep);
      assert s == s[..k] + [sep] + s[k + 1..];
    }
  }

  /** A character in none of the pieces, other than the separator, is not in their join. */
  lemma {:induction false} JoinAvoids(parts: seq<string>, sep: char, c: char)
    requires |parts| >= 1 && c != sep
    requires forall i :: 0 <= i < |parts| ==> c !in parts[i]
    ensures c !in Join(parts, sep)
    decreases |parts|
  {
    if |parts| > 1 {
      JoinAvoids(parts[1..], sep, c);
    }
  }

  /** Splitting recovers any separator-free pieces from their join. */
  lemma {:induction false} SplitJoin(parts: seq<string>, sep: char)
    requires |parts| >= 1
    requires forall i :: 0 <= i < |parts| ==> sep !in parts[i]
    ensures Split(Join(parts, sep), sep) == parts
    decreases |parts|
  {
    var s := Join(parts, sep);
    if |parts| > 1 {
      var p0 := parts[0];
      var tail := Join(parts[1..], sep);
      assert s == p0 + [sep] + tail;
      assert s[|p0|] == sep;
      var k := FirstIndex(s, sep);
      assert k == |p0|;
      assert s[..k] == p0;
      assert s[k + 1..] == tail;
      SplitJoin(parts[1..], sep);
      assert Split(s, sep) == [p0] + parts[1..];
    }
  }

  /** Joining the pieces of two lists is joining the two joins. */
  lemma {:induction false} JoinAppend(xs: seq<string>, ys: seq<string>, sep: char)
    requires |xs| >= 1 && |ys| >= 1
    ensures Join(xs + ys, sep) == Join(xs, sep) + [sep] + Join(ys, sep)
    decreases |xs|
  {
    if |xs| == 1 {
      assert (xs + ys)[1..] == ys;
    } else {
      assert (xs + ys)[1..] == xs[1..] + ys;
      JoinAppend(xs[1..], ys, sep);
    }
  }

  /** Splitting at one separator splits both sides independently. */
  lemma SplitAppend(a: string, b: string, sep: char)
    ensures Split(a + [sep] + b, sep) == Split(a, sep) + Split(b, sep)
  {
    var pa := Split(a, sep);
    var pb := Split(b, sep);
    JoinSplit(a, sep);
    JoinSplit(b, sep);
    JoinAppend(pa, pb, sep);
    SplitJoin(pa + pb, sep);
  }
}
