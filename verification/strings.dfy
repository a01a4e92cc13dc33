/** Character classes and Python's `str.strip(chars)`, over `seq<char>`. */
module Strings {

  /** Whitespace as Python's `str.isspace()` and the `\s` class of `re` classify
      the ASCII range: tab, line feed, vertical tab, form feed, carriage return,
      the four information separators U+001C..U+001F, and space. */
  predicate IsSpace(c: char) {
    (0x09 <= c as int <= 0x0D) || (0x1C <= c as int <= 0x20)
  }

  /** The whitespace characters, as the set that `str.strip()` removes. */
  const Whitespace: set<char> := set c: char | IsSpace(c)

  /** Every character is whitespace (the empty string included). */
  predicate IsBlank(s: string) {
    forall k :: 0 <= k < |s| ==> s[k] in Whitespace
  }

  /** Length of the longest run of characters from `cls` that starts at `p`. */
  function RunFrom(s: string, p: nat, cls: set<char>): (n: nat)
    requires p <= |s|
    ensures p + n <= |s|
    ensures forall k :: p <= k < p + n ==> s[k] in cls
    ensures p + n < |s| ==> s[p + n] !in cls
    decreases |s| - p
  {
    if p == |s| || s[p] !in cls then 0 else 1 + RunFrom(s, p + 1, cls)
  }

  /** Length of the longest run of characters from `cls` that ends just before `hi`. */
  function RunBefore(s: string, hi: nat, cls: set<char>): (n: nat)
    requires hi <= |s|
    ensures n <= hi
    ensures forall k :: hi - n <= k < hi ==> s[k] in cls
    ensures n < hi ==> s[hi - n - 1] !in cls
  {
    if hi == 0 || s[hi - 1] !in cls then 0 else 1 + RunBefore(s, hi - 1, cls)
  }

  /** Where `s.strip(chars)` starts: after the leading run of dropped characters. */
  function StripLo(s: string, drop: set<char>): (lo: nat)
    ensures lo <= |s|
  {
    RunFrom(s, 0, drop)
  }

  /** Where `s.strip(chars)` ends: before the trailing run of dropped characters,
      and never before `StripLo`. */
  function StripHi(s: string, drop: set<char>): (hi: nat)
    ensures StripLo(s, drop) <= hi <= |s|
  {
    var lo := StripLo(s, drop);
    if lo == |s| then lo
    else
      assert s[lo] !in drop;
      |s| - RunBefore(s, |s|, drop)
  }

  /** Python's `s.strip(chars)`: drops the leading and trailing characters that
      belong to `drop`. */
  function Strip(s: string, drop: set<char>): (r: string)
    ensures |r| <= |s|
  {
    s[StripLo(s, drop)..StripHi(s, drop)]
  }

  /** The stripped string is empty exactly when every character is dropped. */
  lemma StripEmptyIff(s: string, drop: set<char>)
    ensures Strip(s, drop) == [] <==> forall k :: 0 <= k < |s| ==> s[k] in drop
  {
    var lo := StripLo(s, drop);
    if lo < |s| {
      assert s[lo] !in drop;
    }
  }

  /** A kept character anywhere leaves a non-empty stripped string. */
  lemma StripKeeps(s: string, drop: set<char>, k: nat)
    requires k < |s| && s[k] !in drop
    ensures Strip(s, drop) != []
  {
    StripEmptyIff(s, drop);
  }

  /** Only dropped characters lie outside the stripped slice. */
  lemma StripOutside(s: string, drop: set<char>)
    ensures forall k :: 0 <= k < StripLo(s, drop) ==> s[k] in drop
    ensures forall k :: StripHi(s, drop) <= k < |s| ==> s[k] in drop
  {
  }

  /** The string is empty, or its first and last characters are both kept. */
  predicate EndsKept(r: string, drop: set<char>) {
    r != [] ==> r[0] !in drop && r[|r| - 1] !in drop
  }

  /** A non-empty stripped string starts and ends with a kept character. */
  lemma StripEnds(s: string, drop: set<char>)
    ensures EndsKept(Strip(s, drop), drop)
  {
  }

  /** Stripping a string that starts and ends with kept characters is the identity. */
  lemma StripKeptEnds(s: string, drop: set<char>)
    requires |s| > 0 && s[0] !in drop && s[|s| - 1] !in drop
    ensures Strip(s, drop) == s
  {
  }

  /** `n` copies of `c`. */
  function Repeat(c: char, n: nat): (r: string)
    ensures |r| == n
    ensures forall k :: 0 <= k < n ==> r[k] == c
  {
    if n == 0 then [] else [c] + Repeat(c, n - 1)
  }

  /** The strings of `ss` joined end to end. */
  function Concat(ss: seq<string>): string
  {
    if |ss| == 0 then [] else ss[0] + Concat(ss[1..])
  }
}
