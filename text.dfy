/**
 * The pieces of Python 3 string and `re` semantics the factoid handlers rely on:
 * `str.strip()`, what `.*` consumes, and how IGNORECASE compares a line with
 * the literal characters of a template.
 */
module PyText {

  /** `str.isspace()`: the characters `str.strip()` removes when called without arguments. */
  predicate IsSpace(c: char)
  {
    c == ' ' || '\t' <= c <= '\r' || '\U{1c}' <= c <= '\U{1f}' || c == '\U{85}' || c == '\U{a0}'
    || c == '\U{1680}' || '\U{2000}' <= c <= '\U{200a}' || c == '\U{2028}' || c == '\U{2029}'
    || c == '\U{202f}' || c == '\U{205f}' || c == '\U{3000}'
  }

  /** `s.lstrip()`: the suffix left once the leading whitespace is dropped. */
  function StripLeft(s: string): (r: string)
    ensures |r| <= |s| && r == s[|s| - |r|..]
    ensures r == [] || !IsSpace(r[0])
    ensures forall i :: 0 <= i < |s| - |r| ==> IsSpace(s[i])
  {
    if s != [] && IsSpace(s[0]) then StripLeft(s[1..]) else s
  }

  /** `s.rstrip()`: the prefix left once the trailing whitespace is dropped. */
  function StripRight(s: string): (r: string)
    ensures |r| <= |s| && r == s[..|r|]
    ensures r == [] || !IsSpace(r[|r| - 1])
    ensures forall i :: |r| <= i < |s| ==> IsSpace(s[i])
  {
    if s != [] && IsSpace(s[|s| - 1]) then StripRight(s[..|s| - 1]) else s
  }

  /** `r` is the slice of `s` that starts at `i`, and everything of `s` around it is whitespace. */
  ghost predicate SliceAmidSpace(s: string, r: string, i: int)
  {
    0 <= i <= |s| - |r| && r == s[i..i + |r|]
    && (forall k :: 0 <= k < i ==> IsSpace(s[k]))
    && (forall k :: i + |r| <= k < |s| ==> IsSpace(s[k]))
  }

  /** `s.strip()`: the part of `s` that neither begins nor ends with whitespace, with only whitespace around it. */
  function Strip(s: string): (r: string)
    ensures r == [] || (!IsSpace(r[0]) && !IsSpace(r[|r| - 1]))
    ensures exists i :: SliceAmidSpace(s, r, i)
  {
    var t := StripLeft(s);
    StripLeftSlice(s);
    StripRightSlice(s, t, |s| - |t|);
    StripRight(t)
  }

  /** `lstrip()` leaves a slice of `s` with only whitespace before it. */
  lemma StripLeftSlice(s: string)
    ensures SliceAmidSpace(s, StripLeft(s), |s| - |StripLeft(s)|)
  {
  }

  /** `rstrip()` of a slice with only whitespace around it is such a slice too, at the same place, and keeps a non-space first character. */
  lemma StripRightSlice(s: string, t: string, i: int)
    requires SliceAmidSpace(s, t, i) && (t == [] || !IsSpace(t[0]))
    ensures SliceAmidSpace(s, StripRight(t), i)
    ensures StripRight(t) == [] || !IsSpace(StripRight(t)[0])
  {
    var r := StripRight(t);
    assert r == [] || r[0] == t[0];
    assert s[i..][..|r|] == s[i..i + |r|];
    forall k | i + |r| <= k < |s|
      ensures IsSpace(s[k])
    {
      if k < i + |t| {
        assert s[k] == t[k - i];
      }
    }
  }

  /** Stripping text that neither begins nor ends with whitespace leaves it as it is. */
  lemma {:induction false} StripTrimmed(s: string)
    requires s == [] || (!IsSpace(s[0]) && !IsSpace(s[|s| - 1]))
    ensures Strip(s) == s
  {
    assert StripLeft(s) == s;
    assert StripRight(s) == s;
  }

  /** What the greedy `.*` of a template consumes: the text before the first newline. */
  function RestOfLine(s: string): (r: string)
    ensures |r| <= |s| && r == s[..|r|]
    ensures '\n' !in r
    ensures |r| == |s| || s[|r|] == '\n'
  {
    if s == [] || s[0] == '\n' then [] else [s[0]] + RestOfLine(s[1..])
  }

  /** On text without a newline, `.*` takes all of it. */
  lemma RestOfPlainLine(s: string)
    requires '\n' !in s
    ensures RestOfLine(s) == s
  {
  }

  /**
   * The character that IGNORECASE compares in place of `c`, for every character that can match one
   * of the (ASCII) characters of the templates: ASCII capitals fold to small letters, and Python 3's
   * `re` also lets U+0130 and U+0131 stand for 'i', U+017F for 's' and U+212A for 'k'.
   */
  function Fold(c: char): char
  {
    if 'A' <= c <= 'Z' then (c as int + 32) as char
    else if c == '\U{130}' || c == '\U{131}' then 'i'
    else if c == '\U{17f}' then 's'
    else if c == '\U{212a}' then 'k'
    else c
  }

  /** Whether line character `c` matches template character `p`, with or without IGNORECASE. */
  predicate CharMatches(c: char, p: char, ignoreCase: bool)
  {
    c == p || (ignoreCase && Fold(c) == Fold(p))
  }

  /** Whether `s` begins with the literal text `p` of a template. */
  predicate StartsWithPattern(s: string, p: string, ignoreCase: bool)
  {
    |p| <= |s| && forall i :: 0 <= i < |p| ==> CharMatches(s[i], p[i], ignoreCase)
  }
}
