/** The string operations the screens call: `String.prototype.trim`,
    `toLowerCase` and `includes`. */
module Text {

  /** The code points ECMAScript counts as WhiteSpace or LineTerminator,
      which is the set `trim` removes from both ends of a string. */
  predicate IsSpace(c: char) {
    || c == '\t' || c == '\n' || c == '\U{B}' || c == '\U{C}' || c == '\r' || c == ' '
    || c == '\U{A0}' || c == '\U{1680}' || ('\U{2000}' <= c <= '\U{200A}')
    || c == '\U{2028}' || c == '\U{2029}' || c == '\U{202F}' || c == '\U{205F}'
    || c == '\U{3000}' || c == '\U{FEFF}'
  }

  /** Every character of `s` is white space (vacuously so for the empty string). */
  predicate Blank(s: string) {
    forall k :: 0 <= k < |s| ==> IsSpace(s[k])
  }

  /** `t` is what is left of `s` once white space is stripped from both ends,
      `t` starting at index `i` of `s`: `s` is blanks, then `t`, then blanks,
      and `t` neither starts nor ends with white space. */
  predicate TrimmedAt(s: string, t: string, i: nat) {
    && i + |t| <= |s|
    && s[i..i + |t|] == t
    && (forall k :: 0 <= k < i ==> IsSpace(s[k]))
    && (forall k :: i + |t| <= k < |s| ==> IsSpace(s[k]))
    && (t != [] ==> !IsSpace(t[0]) && !IsSpace(t[|t| - 1]))
  }

  /** The first index at or after `i` that holds a non-space character, or `|s|`. */
  function SkipLeading(s: string, i: nat): (j: nat)
    requires i <= |s|
    ensures i <= j <= |s|
    ensures forall k :: i <= k < j ==> IsSpace(s[k])
    ensures j < |s| ==> !IsSpace(s[j])
    decreases |s| - i
  {
    if i == |s| || !IsSpace(s[i]) then i else SkipLeading(s, i + 1)
  }

  /** One past the last non-space character in `s[lo..j]`, or `lo` if there is none. */
  function SkipTrailing(s: string, lo: nat, j: nat): (e: nat)
    requires lo <= j <= |s|
    ensures lo <= e <= j
    ensures forall k :: e <= k < j ==> IsSpace(s[k])
    ensures lo < e ==> !IsSpace(s[e - 1])
    decreases j
  {
    if j == lo || !IsSpace(s[j - 1]) then j else SkipTrailing(s, lo, j - 1)
  }

  /** `s.trim()`. */
  function Trim(s: string): (t: string)
    ensures exists i: nat :: i <= |s| && TrimmedAt(s, t, i)
    ensures t == [] <==> Blank(s)
  {
    var b := SkipLeading(s, 0);
    var e := SkipTrailing(s, b, |s|);
    assert TrimmedAt(s, s[b..e], b);
    assert b < |s| ==> b < e;
    s[b..e]
  }

  /** The characterisation of `TrimmedAt` pins the trimmed string down: there is
      only one string that `s` can be trimmed to. */
  lemma {:induction false} TrimUnique(s: string, t: string, i: nat)
    requires TrimmedAt(s, t, i)
    ensures t == Trim(s)
  {
    var b := SkipLeading(s, 0);
    var e := SkipTrailing(s, b, |s|);
    if t == [] {
      assert Blank(s);
    } else {
      assert s[i] == t[0];
      assert s[i + |t| - 1] == t[|t| - 1];
      assert b == i;
      assert e == i + |t|;
    }
  }

  /** White space added around a string does not change what it trims to. */
  lemma TrimIgnoresPadding(s: string, before: string, after: string)
    requires Blank(before) && Blank(after)
    ensures Trim(before + s + after) == Trim(s)
  {
    var t := Trim(s);
    var i: nat :| i <= |s| && TrimmedAt(s, t, i);
    var p := before + s + after;
    var j := |before| + i;
    assert p[j..j + |t|] == s[i..i + |t|];
    forall k | 0 <= k < j
      ensures IsSpace(p[k])
    {
      if k >= |before| {
        assert p[k] == s[k - |before|];
      }
    }
    forall k | j + |t| <= k < |p|
      ensures IsSpace(p[k])
    {
      if k < |before| + |s| {
        assert p[k] == s[k - |before|];
      } else {
        assert p[k] == after[k - |before| - |s|];
      }
    }
    assert TrimmedAt(p, t, j);
    TrimUnique(p, t, j);
  }

  /** The number of UTF-16 code units that encode `c`: two for a character
      outside the Basic Multilingual Plane (an emoji, say), one otherwise. */
  function Utf16Units(c: char): (n: nat)
    ensures 1 <= n <= 2
    ensures n == 2 <==> c as int >= 0x1_0000
  {
    if c as int >= 0x1_0000 then 2 else 1
  }

  /** JavaScript's `s.length`: the number of UTF-16 code units of `s`. */
  function Utf16Length(s: string): (n: nat)
    ensures |s| <= n <= 2 * |s|
    ensures n == 0 <==> s == []
  {
    if s == [] then 0 else Utf16Units(s[0]) + Utf16Length(s[1..])
  }

  /** The UTF-16 length of a concatenation is the sum of the lengths. */
  lemma {:induction false} Utf16LengthAppend(a: string, b: string)
    ensures Utf16Length(a + b) == Utf16Length(a) + Utf16Length(b)
    decreases |a|
  {
    if a != [] {
      assert (a + b)[0] == a[0];
      assert (a + b)[1..] == a[1..] + b;
      Utf16LengthAppend(a[1..], b);
    } else {
      assert a + b == b;
    }
  }

  /** The positions, at `lo` or later, of characters outside the Basic
      Multilingual Plane: each is written as a surrogate pair in UTF-16. */
  function AstralFrom(s: string, lo: nat): (ks: set<int>)
    ensures forall k :: k in ks <==> lo <= k < |s| && s[k] as int >= 0x1_0000
  {
    set k | lo <= k < |s| && s[k] as int >= 0x1_0000
  }

  /** Peeling off position `lo`: it is astral or not, and the rest lies after it. */
  lemma AstralFromStep(s: string, lo: nat)
    requires lo < |s|
    ensures |AstralFrom(s, lo)| == |AstralFrom(s, lo + 1)| + Utf16Units(s[lo]) - 1
  {
    if s[lo] as int >= 0x1_0000 {
      assert AstralFrom(s, lo) == {lo} + AstralFrom(s, lo + 1);
    } else {
      assert AstralFrom(s, lo) == AstralFrom(s, lo + 1);
    }
  }

  /** JavaScript's `length` of a suffix: one unit per character plus one more
      for each character outside the Basic Multilingual Plane. */
  lemma {:induction false} Utf16LengthFrom(s: string, lo: nat)
    requires lo <= |s|
    ensures Utf16Length(s[lo..]) == |s| - lo + |AstralFrom(s, lo)|
    decreases |s| - lo
  {
    if lo == |s| {
      assert AstralFrom(s, lo) == {};
    } else {
      assert s[lo..][0] == s[lo];
      assert s[lo..][1..] == s[lo + 1..];
      Utf16LengthFrom(s, lo + 1);
      AstralFromStep(s, lo);
    }
  }

  /** `s.length` is the number of characters plus the number of characters
      that need a surrogate pair: exactly the UTF-16 code-unit count. */
  lemma Utf16LengthCountsUnits(s: string)
    ensures Utf16Length(s) == |s| + |set k: int | 0 <= k < |s| && s[k] as int >= 0x1_0000|
  {
    Utf16LengthFrom(s, 0);
    assert s[0..] == s;
    assert AstralFrom(s, 0) == set k: int | 0 <= k < |s| && s[k] as int >= 0x1_0000;
  }

  /** A slice is never longer, in UTF-16 units, than the string it is cut from. */
  lemma Utf16LengthSlice(s: string, i: nat, j: nat)
    requires i <= j <= |s|
    ensures Utf16Length(s[i..j]) <= Utf16Length(s)
  {
    var pre, mid, post := s[..i], s[i..j], s[j..];
    assert s[..j] == pre + mid;
    assert s == s[..j] + post;
    Utf16LengthAppend(pre, mid);
    Utf16LengthAppend(s[..j], post);
  }

  /** `toLowerCase` on one character. The model maps the upper-case letters of
      Basic Latin and Latin-1 (A-Z, and À-Þ except ×) to their lower-case forms
      and leaves every other character alone. */
  function LowerChar(c: char): (d: char)
  {
    if 'A' <= c <= 'Z' || ('\U{C0}' <= c <= '\U{DE}' && c != '\U{D7}') then
      (c as int + 32) as char
    else
      c
  }

  /** A character that `toLowerCase` would change. */
  predicate IsUpper(c: char) {
    LowerChar(c) != c
  }

  /** `s.toLowerCase()`, character by character. */
  function ToLower(s: string): (r: string)
    ensures |r| == |s|
    ensures forall k :: 0 <= k < |s| ==> r[k] == LowerChar(s[k])
    ensures forall k :: 0 <= k < |r| ==> !IsUpper(r[k])
  {
    seq(|s|, k requires 0 <= k < |s| => LowerChar(s[k]))
  }

  /** `needle` occurs in `hay` starting at index `i`. */
  predicate OccursAt(hay: string, needle: string, i: nat) {
    i + |needle| <= |hay| && hay[i..i + |needle|] == needle
  }

  /** The specification of `hay.includes(needle)`: `needle` occurs somewhere in `hay`. */
  predicate Contains(hay: string, needle: string) {
    exists i: nat :: i <= |hay| && OccursAt(hay, needle, i)
  }

  /** Searches for `needle` in `hay` from position `i` onwards. */
  function IncludesFrom(hay: string, needle: string, i: nat): (found: bool)
    requires i <= |hay|
    ensures found <==> exists k: nat :: i <= k <= |hay| && OccursAt(hay, needle, k)
    decreases |hay| - i
  {
    if OccursAt(hay, needle, i) then true
    else if i == |hay| then false
    else IncludesFrom(hay, needle, i + 1)
  }

  /** `hay.includes(needle)`: a left-to-right scan for an occurrence. */
  function Includes(hay: string, needle: string): (found: bool)
    ensures found <==> Contains(hay, needle)
  {
    IncludesFrom(hay, needle, 0)
  }
}
