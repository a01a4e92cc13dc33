/** `sanitize_collection_name` of ingest_markdown.py: a collection name made from
    a file's base name. The function's own comments ask for a name that starts and
    ends with a letter or digit (line 47) and has 3 to 63 characters (line 51). */
module CollectionName {
  import opened Strings

  predicate IsAsciiAlnum(c: char) {
    ('a' <= c <= 'z') || ('A' <= c <= 'Z') || ('0' <= c <= '9')
  }

  /** The characters the pattern `[^a-zA-Z0-9_-]` leaves alone. */
  predicate IsNameChar(c: char) {
    IsAsciiAlnum(c) || c == '_' || c == '-'
  }

  predicate AllNameChars(s: string) {
    forall k :: 0 <= k < |s| ==> IsNameChar(s[k])
  }

  predicate HasAlnum(s: string) {
    exists k :: 0 <= k < |s| && IsAsciiAlnum(s[k])
  }

  /** The characters `strip("_-")` removes from both ends. */
  const Separators: set<char> := {'_', '-'}
  /** The name used when nothing usable is left. */
  const DefaultName: string := "documents"
  /** Appended to names shorter than `MinLength`. */
  const PadSuffix: string := "_collection"
  const MinLength: nat := 3
  const MaxLength: nat := 63

  /** One substitution of the pattern `[^a-zA-Z0-9_-]`. */
  function ReplaceChar(c: char): char {
    if IsNameChar(c) then c else '_'
  }

  /** `re.sub(r"[^a-zA-Z0-9_-]", "_", name)`: every character outside the class
      becomes `_` and every other one stays. */
  function ReplaceInvalid(name: string): (r: string)
    ensures |r| == |name| && AllNameChars(r)
    ensures forall k :: 0 <= k < |name| ==> (IsNameChar(name[k]) ==> r[k] == name[k]) && (!IsNameChar(name[k]) ==> r[k] == '_')
  {
    if |name| == 0 then [] else [ReplaceChar(name[0])] + ReplaceInvalid(name[1..])
  }

  /** The name after replacement and `strip("_-")`. */
  function Trimmed(name: string): (t: string)
    ensures |t| <= |name| && AllNameChars(t)
    ensures t != [] ==> IsAsciiAlnum(t[0]) && IsAsciiAlnum(t[|t| - 1])
  {
    var s := ReplaceInvalid(name);
    StripEnds(s, Separators);
    Strip(s, Separators)
  }

  /** Nothing survives the strip exactly when the name holds no ASCII letter or digit. */
  lemma TrimmedEmptyIff(name: string)
    ensures Trimmed(name) == [] <==> !HasAlnum(name)
  {
    var s := ReplaceInvalid(name);
    StripEmptyIff(s, Separators);
    if k :| 0 <= k < |name| && IsAsciiAlnum(name[k]) {
      assert s[k] !in Separators;
    }
  }

  /** A name of letters, digits, `_` and `-` that starts and ends with a letter or digit. */
  predicate IsCleanName(s: string) {
    |s| > 0 && AllNameChars(s) && IsAsciiAlnum(s[0]) && IsAsciiAlnum(s[|s| - 1])
  }

  lemma AllNameCharsAppend(a: string, b: string)
    requires AllNameChars(a) && AllNameChars(b)
    ensures AllNameChars(a + b)
  {
    assert forall k :: 0 <= k < |a| + |b| ==> (a + b)[k] == if k < |a| then a[k] else b[k - |a|];
  }

  /** The trimmed name, or "documents" when nothing is left. */
  function OrDefault(t: string): (n: string)
    requires t == [] || IsCleanName(t)
    ensures IsCleanName(n)
  {
    if t == [] then
      assert AllNameChars(DefaultName) by {
        assert forall k :: 0 <= k < |DefaultName| ==> 'a' <= DefaultName[k] <= 'z';
      }
      DefaultName
    else t
  }

  /** A name shorter than three characters with "_collection" appended. */
  function Pad(n: string): (p: string)
    requires IsCleanName(n)
    ensures IsCleanName(p) && MinLength <= |p| && |n| <= |p|
    ensures p[..|n|] == n
    ensures |p| <= if |n| < MinLength then MinLength + |PadSuffix| else |n|
  {
    if |n| < MinLength then
      assert AllNameChars(PadSuffix) by {
        assert forall k :: 0 <= k < |PadSuffix| ==> PadSuffix[k] == '_' || 'a' <= PadSuffix[k] <= 'z';
      }
      AllNameCharsAppend(n, PadSuffix);
      assert (n + PadSuffix)[..|n|] == n;
      n + PadSuffix
    else n
  }

  /** Python's `s[:63]`. */
  function Truncate(s: string): (r: string)
    ensures |r| == if |s| <= MaxLength then |s| else MaxLength
    ensures r == s[..|r|]
  {
    if |s| <= MaxLength then s else s[..MaxLength]
  }

  /** `sanitize_collection_name(name)`. */
  function SanitizeCollectionName(name: string): (r: string)
    ensures MinLength <= |r| <= MaxLength
    ensures AllNameChars(r) && IsAsciiAlnum(r[0])
  {
    Truncate(Pad(OrDefault(Trimmed(name))))
  }

  /** A name with no ASCII letter or digit becomes "documents". */
  lemma NoAlnumGivesDefault(name: string)
    requires !HasAlnum(name)
    ensures SanitizeCollectionName(name) == DefaultName
  {
    TrimmedEmptyIff(name);
  }

  /** Otherwise the result starts with as much of the trimmed name as fits. */
  lemma KeepsTrimmedPrefix(name: string)
    requires HasAlnum(name)
    ensures var t := Trimmed(name);
      var n := if |t| < MaxLength then |t| else MaxLength;
      SanitizeCollectionName(name)[..n] == t[..n]
  {
    TrimmedEmptyIff(name);
  }

  /** A name the replacement leaves alone and whose first character is kept by the
      strip loses only a trailing run of separators. */
  lemma TrimmedOfNameStart(y: string)
    requires AllNameChars(y) && |y| > 0 && IsAsciiAlnum(y[0])
    ensures Trimmed(y) == Strip(y, Separators) == y[..StripHi(y, Separators)]
  {
    assert ReplaceInvalid(y) == y;
  }

  /** The steps after the strip: the result ends with a letter or digit exactly when
      the trimmed name fits or is cut just after a letter or digit. */
  lemma FinishEndsAlnumIff(t: string)
    requires t == [] || IsCleanName(t)
    ensures IsCleanName(Truncate(Pad(OrDefault(t)))) <==> |t| <= MaxLength || IsAsciiAlnum(t[MaxLength - 1])
  {
    var n := OrDefault(t);
    var p := Pad(n);
    var r := Truncate(p);
    if |t| > MaxLength {
      assert p == t;
      assert r[|r| - 1] == t[MaxLength - 1];
    } else {
      assert |p| <= MaxLength by {
        if t == [] {
          assert |n| == 9;
        }
      }
      assert r == p;
    }
  }

  /** The result ends with a letter or digit exactly when the trimmed name fits in
      63 characters or its 63rd character is a letter or digit. A longer name is cut
      at 63 characters and may then end with `_` or `-`. */
  lemma EndsAlnumIff(name: string)
    ensures var t := Trimmed(name);
      IsCleanName(SanitizeCollectionName(name)) <==> |t| <= MaxLength || IsAsciiAlnum(t[MaxLength - 1])
  {
    FinishEndsAlnumIff(Trimmed(name));
  }

  /** Stripping a name that starts with a letter or digit but ends with a separator
      leaves a shorter clean name. */
  lemma StripTrailingSeparators(y: string)
    requires AllNameChars(y) && |y| > 0 && IsAsciiAlnum(y[0]) && !IsAsciiAlnum(y[|y| - 1])
    ensures var t := Strip(y, Separators); |t| < |y| && IsCleanName(t)
  {
    assert y[|y| - 1] in Separators;
    StripKeeps(y, Separators, 0);
    StripEnds(y, Separators);
    StripOutside(y, Separators);
  }

  /** Sanitizing a name that already has the shape of a result gives it back exactly
      when it ends with a letter or digit. */
  lemma SanitizeResultShaped(y: string)
    requires MinLength <= |y| <= MaxLength && AllNameChars(y) && IsAsciiAlnum(y[0])
    ensures SanitizeCollectionName(y) == y <==> IsCleanName(y)
  {
    TrimmedOfNameStart(y);
    var t := Strip(y, Separators);
    if IsAsciiAlnum(y[|y| - 1]) {
      StripKeptEnds(y, Separators);
      assert Truncate(Pad(OrDefault(y))) == y;
    } else {
      StripTrailingSeparators(y);
      FinishEndsAlnumIff(t);
    }
  }

  /** Sanitizing a result again changes it exactly when it ends with `_` or `-`. */
  lemma IdempotentIff(name: string)
    ensures var r := SanitizeCollectionName(name);
      SanitizeCollectionName(r) == r <==> IsCleanName(r)
  {
    SanitizeResultShaped(SanitizeCollectionName(name));
  }

  /** A base name of 62 letters, an underscore and a letter is cut to 62 letters and
      an underscore: the result does not end with a letter or digit, and
      sanitizing it again gives a different name. */
  lemma TruncationLeavesSeparator()
    ensures var name := Repeat('a', 62) + "_b";
      var r := SanitizeCollectionName(name);
      && r == Repeat('a', 62) + "_"
      && !IsCleanName(r)
      && SanitizeCollectionName(r) != r
  {
    var name := Repeat('a', 62) + "_b";
    assert AllNameChars(name);
    TrimmedOfNameStart(name);
    StripKeptEnds(name, Separators);
    assert Pad(OrDefault(name)) == name;
    var r := Repeat('a', 62) + "_";
    assert name[..MaxLength] == r;
    assert SanitizeCollectionName(name) == r;
    SanitizeResultShaped(r);
  }

  /** A result with its trailing separators stripped again and, if that leaves fewer
      than three characters, padded again. */
  function Restrip(r: string): (c: string)
    requires MinLength <= |r| <= MaxLength && AllNameChars(r) && IsAsciiAlnum(r[0])
    ensures MinLength <= |c| <= MaxLength && IsCleanName(c)
    ensures IsCleanName(r) ==> c == r
  {
    var t := Strip(r, Separators);
    assert IsCleanName(t) && (IsCleanName(r) ==> t == r) by {
      if IsAsciiAlnum(r[|r| - 1]) {
        StripKeptEnds(r, Separators);
      } else {
        StripTrailingSeparators(r);
      }
    }
    Pad(t)
  }

  /** The sanitizer as its comment describes it: the cut name is stripped of
      trailing separators once more, so it always ends with a letter or digit. */
  function SanitizeCollectionNameStrict(name: string): (r: string)
    ensures MinLength <= |r| <= MaxLength && IsCleanName(r)
  {
    Restrip(SanitizeCollectionName(name))
  }

  /** The corrected sanitizer agrees with the original whenever the original's
      result already ends with a letter or digit. */
  lemma StrictAgrees(name: string)
    ensures IsCleanName(SanitizeCollectionName(name)) ==>
      SanitizeCollectionNameStrict(name) == SanitizeCollectionName(name)
  {
  }

  /** The corrected sanitizer is idempotent. */
  lemma StrictIdempotent(name: string)
    ensures SanitizeCollectionNameStrict(SanitizeCollectionNameStrict(name)) == SanitizeCollectionNameStrict(name)
  {
    SanitizeResultShaped(SanitizeCollectionNameStrict(name));
  }
}
