/**
 * The string operations of Python's `str` that the resume services call:
 * `strip`, `rstrip`, `lower`, `title`, `isupper`, `in`, `endswith`, `split`,
 * `join`, and `re.split` on a character class. `StripLeft` stands for the
 * `\s+` a split pattern consumes, and `Upper` serves the lemmas about
 * upper-cased headings.
 *
 * Case is modelled on ASCII letters only; every other character is uncased.
 * Whitespace is the set of characters for which `str.isspace` holds.
 */
module Text {

  /** A character for which Python's `str.isspace` holds; `strip()` and the regex class `\s` use the same set. */
  predicate IsSpace(c: char) {
    c == ' ' || ('\t' <= c <= '\r') || ('\U{1C}' <= c <= '\U{1F}') || c == '\U{85}' || c == '\U{A0}'
    || c == '\U{1680}' || ('\U{2000}' <= c <= '\U{200A}') || c == '\U{2028}' || c == '\U{2029}'
    || c == '\U{202F}' || c == '\U{205F}' || c == '\U{3000}'
  }

  /** The whitespace characters, all of which lie below U+3001. */
  const Whitespace: set<char> := set c: char | '\0' <= c <= '\U{3000}' && IsSpace(c)

  /** A character outside `Whitespace` is not a space. */
  lemma OutsideWhitespace(c: char)
    requires c !in Whitespace
    ensures !IsSpace(c)
  {
  }

  /** No character of `cs` at either end of `s`. */
  predicate Unpadded(s: string, cs: set<char>) {
    s == [] || (s[0] !in cs && s[|s| - 1] !in cs)
  }

  /** No whitespace at either end: what `strip()` returns. */
  predicate Trimmed(s: string) {
    Unpadded(s, Whitespace)
  }

  //////////////////////////////////////////////////////////////////////////
  // strip / rstrip, and the leading-whitespace cut of a split pattern
  //////////////////////////////////////////////////////////////////////////

  /** How many leading characters of `s` are in `cs`. */
  function LeftCount(s: string, cs: set<char>): (k: nat)
    ensures k <= |s|
    ensures k < |s| ==> s[k] !in cs
    ensures forall i :: 0 <= i < k ==> s[i] in cs
  {
    if s != [] && s[0] in cs then 1 + LeftCount(s[1..], cs) else 0
  }

  /** How many trailing characters of `s` are in `cs`. */
  function RightCount(s: string, cs: set<char>): (k: nat)
    ensures k <= |s|
    ensures k < |s| ==> s[|s| - 1 - k] !in cs
    ensures forall i :: |s| - k <= i < |s| ==> s[i] in cs
  {
    if s != [] && s[|s| - 1] in cs then 1 + RightCount(s[..|s| - 1], cs) else 0
  }

  /** The suffix left after dropping the leading characters that are in `cs` (what `\s+` consumes after a break). */
  function StripLeft(s: string, cs: set<char>): string {
    s[LeftCount(s, cs)..]
  }

  /** `s.rstrip(cs)`: the prefix left after dropping the trailing characters that are in `cs`. */
  function StripRight(s: string, cs: set<char>): string {
    s[..|s| - RightCount(s, cs)]
  }

  /** `s.strip(cs)`: a contiguous piece of `s` with no `cs` character at either end. */
  function StripChars(s: string, cs: set<char>): (r: string)
    ensures Unpadded(r, cs)
    ensures Unpadded(s, cs) ==> r == s
    ensures r == [] <==> forall i :: 0 <= i < |s| ==> s[i] in cs
  {
    var l := StripLeft(s, cs);
    var r := StripRight(l, cs);
    assert r == [] ==> l == [];
    r
  }

  /** `s.strip(cs)` cuts `s` into a prefix and a suffix made of `cs` characters around the result. */
  lemma StripCharsSplit(s: string, cs: set<char>) returns (pre: string, post: string)
    ensures s == pre + StripChars(s, cs) + post
    ensures forall i :: 0 <= i < |pre| ==> pre[i] in cs
    ensures forall i :: 0 <= i < |post| ==> post[i] in cs
  {
    var k := LeftCount(s, cs);
    var l := s[k..];
    var n := |l| - RightCount(l, cs);
    pre, post := s[..k], l[n..];
    assert s == pre + l[..n] + post;
  }

  /** The core of a string padded with `cs` characters on both sides is what `strip(cs)` returns. */
  lemma StripCharsPadded(pre: string, core: string, post: string, cs: set<char>)
    requires forall i :: 0 <= i < |pre| ==> pre[i] in cs
    requires forall i :: 0 <= i < |post| ==> post[i] in cs
    requires core != [] && Unpadded(core, cs)
    ensures StripChars(pre + core + post, cs) == core
  {
    var s := pre + core + post;
    var k := LeftCount(s, cs);
    assert s[|pre|] == core[0];
    assert forall i :: 0 <= i < |pre| ==> s[i] == pre[i];
    assert k == |pre|;
    var l := s[k..];
    assert l == core + post;
    var m := RightCount(l, cs);
    assert l[|core| - 1] == core[|core| - 1];
    assert forall i :: |core| <= i < |l| ==> l[i] == post[i - |core|];
    assert m == |post|;
    assert l[..|l| - m] == core;
  }

  /** A concatenation of strings made of `cs` characters is one too. */
  lemma AllInConcat(a: string, b: string, cs: set<char>)
    requires forall i :: 0 <= i < |a| ==> a[i] in cs
    requires forall i :: 0 <= i < |b| ==> b[i] in cs
    ensures forall i :: 0 <= i < |a + b| ==> (a + b)[i] in cs
  {
    forall i | 0 <= i < |a + b|
      ensures (a + b)[i] in cs
    {
      if i >= |a| {
        assert (a + b)[i] == b[i - |a|];
      }
    }
  }

  /** Padding a string with more `cs` characters does not change what `strip(cs)` returns. */
  lemma StripCharsPadding(pre: string, s: string, post: string, cs: set<char>)
    requires forall i :: 0 <= i < |pre| ==> pre[i] in cs
    requires forall i :: 0 <= i < |post| ==> post[i] in cs
    ensures StripChars(pre + s + post, cs) == StripChars(s, cs)
  {
    var core := StripChars(s, cs);
    if core == [] {
      AllInConcat(pre, s, cs);
      AllInConcat(pre + s, post, cs);
    } else {
      var p, q := StripCharsSplit(s, cs);
      AllInConcat(pre, p, cs);
      AllInConcat(q, post, cs);
      assert pre + s + post == (pre + p) + core + (q + post);
      StripCharsPadded(pre + p, core, q + post, cs);
    }
  }

  /** `s.strip()`. */
  function Strip(s: string): string {
    StripChars(s, Whitespace)
  }

  /** Where `Strip(s)` starts inside `s`. */
  function StripOffset(s: string): (k: nat)
    ensures k + |Strip(s)| <= |s|
    ensures Strip(s) == s[k..k + |Strip(s)|]
  {
    var l := StripLeft(s, Whitespace);
    assert Strip(s) == StripRight(l, Whitespace) == l[..|Strip(s)|];
    LeftCount(s, Whitespace)
  }

  /** A string that does not end in whitespace keeps its last character when stripped. */
  lemma StripKeepsLast(s: string)
    requires s != [] && !IsSpace(s[|s| - 1])
    ensures Strip(s) != [] && Strip(s)[|Strip(s)| - 1] == s[|s| - 1]
  {
    var l := StripLeft(s, Whitespace);
    assert s[|s| - 1] !in Whitespace;
    assert l != [] && l[|l| - 1] == s[|s| - 1];
  }

  lemma StripOfTrimmed(s: string)
    requires Trimmed(s)
    ensures Strip(s) == s
  {
  }

  //////////////////////////////////////////////////////////////////////////
  // Case, on ASCII letters
  //////////////////////////////////////////////////////////////////////////

  predicate IsUpperChar(c: char) {
    'A' <= c <= 'Z'
  }

  predicate IsLowerChar(c: char) {
    'a' <= c <= 'z'
  }

  predicate IsCasedChar(c: char) {
    IsUpperChar(c) || IsLowerChar(c)
  }

  function LowerChar(c: char): char {
    if IsUpperChar(c) then (c as int + 32) as char else c
  }

  function UpperChar(c: char): char {
    if IsLowerChar(c) then (c as int - 32) as char else c
  }

  /** `s.lower()`. */
  function Lower(s: string): string {
    seq(|s|, i requires 0 <= i < |s| => LowerChar(s[i]))
  }

  /** Upper-casing, for the lemmas about headings written in capitals. */
  function Upper(s: string): string {
    seq(|s|, i requires 0 <= i < |s| => UpperChar(s[i]))
  }

  /**
   * `s.title()` continued after a character that was cased (`previousCased`) or not:
   * a cased character is upper-cased when the one before it is uncased and
   * lower-cased otherwise; uncased characters are kept.
   */
  function TitleFrom(s: string, previousCased: bool): string {
    if s == [] then []
    else
      var c := s[0];
      var c' := if !IsCasedChar(c) then c else if previousCased then LowerChar(c) else UpperChar(c);
      [c'] + TitleFrom(s[1..], IsCasedChar(c))
  }

  /** `s.title()`. */
  function Title(s: string): string {
    TitleFrom(s, false)
  }

  /** `s.isupper()`: at least one cased character, and no cased character in lower case. */
  predicate IsUpper(s: string) {
    (exists i :: 0 <= i < |s| && IsUpperChar(s[i])) && forall i :: 0 <= i < |s| ==> !IsLowerChar(s[i])
  }

  //////////////////////////////////////////////////////////////////////////
  // Searching
  //////////////////////////////////////////////////////////////////////////

  /** `sub in s`: `sub` occurs in `s` as a contiguous piece (the empty string occurs everywhere). */
  predicate Contains(s: string, sub: string) {
    exists i :: 0 <= i <= |s| - |sub| && OccursAt(s, sub, i)
  }

  /** `sub` occurs in `s` starting at index `i`. */
  predicate OccursAt(s: string, sub: string, i: int) {
    0 <= i <= |s| - |sub| && s[i..i + |sub|] == sub
  }

  /** `s.endswith(suffix)`. */
  predicate EndsWith(s: string, suffix: string) {
    |suffix| <= |s| && s[|s| - |suffix|..] == suffix
  }

  /** The number of occurrences of `c` in `s`. */
  function Count(s: string, c: char): nat {
    if s == [] then 0 else (if s[0] == c then 1 else 0) + Count(s[1..], c)
  }

  /** The index of the first character of `s` that is in `cs`, or `|s|` when there is none. */
  function IndexOfAny(s: string, cs: set<char>): (k: nat)
    ensures k <= |s|
    ensures k < |s| ==> s[k] in cs
    ensures forall i :: 0 <= i < k ==> s[i] !in cs
  {
    if s == [] then 0 else if s[0] in cs then 0 else 1 + IndexOfAny(s[1..], cs)
  }

  //////////////////////////////////////////////////////////////////////////
  // split / join
  //////////////////////////////////////////////////////////////////////////

  /**
   * Splitting at every character of `cs`: `s.split(c)` when `cs == {c}`, and
   * `re.split("[...]", s)` for a character class. Empty pieces are kept.
   */
  function SplitOn(s: string, cs: set<char>): (r: seq<string>)
    ensures |r| >= 1
    ensures forall i, j :: 0 <= i < |r| && 0 <= j < |r[i]| ==> r[i][j] !in cs
    decreases |s|
  {
    var k := IndexOfAny(s, cs);
    if k == |s| then [s] else [s[..k]] + SplitOn(s[k + 1..], cs)
  }

  /** `sep.join(parts)`. */
  function Join(parts: seq<string>, sep: string): string {
    if |parts| == 0 then ""
    else if |parts| == 1 then parts[0]
    else parts[0] + sep + Join(parts[1..], sep)
  }

  lemma {:induction false} JoinSnoc(parts: seq<string>, x: string, sep: string)
    requires parts != []
    ensures Join(parts + [x], sep) == Join(parts, sep) + sep + x
  {
    if |parts| == 1 {
      assert parts + [x] == [parts[0], x];
    } else {
      assert (parts + [x])[1..] == parts[1..] + [x];
      JoinSnoc(parts[1..], x, sep);
    }
  }

  /** Joining the pieces of a split on one character gives back the string. */
  lemma {:induction false} SplitJoin(s: string, c: char)
    ensures Join(SplitOn(s, {c}), [c]) == s
    decreases |s|
  {
    var k := IndexOfAny(s, {c});
    if k < |s| {
      SplitJoin(s[k + 1..], c);
      assert s == s[..k] + [c] + s[k + 1..];
    }
  }

  lemma {:induction false} CountConcat(a: string, b: string, c: char)
    ensures Count(a + b, c) == Count(a, c) + Count(b, c)
  {
    if a != [] {
      assert (a + b)[1..] == a[1..] + b;
      CountConcat(a[1..], b, c);
    } else {
      assert a + b == b;
    }
  }

  lemma {:induction false} CountAbsent(s: string, c: char)
    requires forall i :: 0 <= i < |s| ==> s[i] != c
    ensures Count(s, c) == 0
  {
    if s != [] {
      CountAbsent(s[1..], c);
    }
  }

  /** Splitting on one character gives one piece more than it has occurrences. */
  lemma {:induction false} SplitCount(s: string, c: char)
    ensures |SplitOn(s, {c})| == Count(s, c) + 1
    decreases |s|
  {
    var k := IndexOfAny(s, {c});
    CountAbsent(s[..k], c);
    if k < |s| {
      SplitCount(s[k + 1..], c);
      assert s == s[..k] + ([c] + s[k + 1..]);
      CountConcat(s[..k], [c] + s[k + 1..], c);
      assert ([c] + s[k + 1..])[1..] == s[k + 1..];
    } else {
      assert s[..k] == s;
    }
  }

  /** `[p.strip() for p in parts if p.strip()]`. */
  function StrippedNonEmpty(parts: seq<string>): (r: seq<string>)
    ensures |r| <= |parts|
    ensures forall i :: 0 <= i < |r| ==> r[i] != [] && Trimmed(r[i])
  {
    if parts == [] then []
    else
      var head := Strip(parts[0]);
      (if head == [] then [] else [head]) + StrippedNonEmpty(parts[1..])
  }
}
