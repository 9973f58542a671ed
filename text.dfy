/**
 * The few Python string builtins the handlers rely on: str.strip,
 * str.split()[0] and str.split(' ')[0] with Python's whitespace set, and
 * str.upper, str.isdigit and the case-insensitive substring test behind
 * SQL `ILIKE '%q%'` restricted to ASCII letters and digits.
 */
module Text {
  import opened Wrappers

  /**
   * str.isspace, the set str.strip() and str.split() remove: \t, \n, \v,
   * \f, \r, \x1c-\x1f, space, U+0085, U+00A0, U+1680, U+2000-U+200A,
   * U+2028, U+2029, U+202F, U+205F and U+3000.
   */
  predicate IsSpace(c: char) {
    || ('\t' <= c <= '\r') || ('\U{1c}' <= c <= ' ')
    || c == '\U{85}' || c == '\U{a0}' || c == '\U{1680}'
    || ('\U{2000}' <= c <= '\U{200a}') || c == '\U{2028}' || c == '\U{2029}'
    || c == '\U{202f}' || c == '\U{205f}' || c == '\U{3000}'
  }

  predicate IsDigit(c: char) {
    '0' <= c <= '9'
  }

  predicate IsUpperLetter(c: char) {
    'A' <= c <= 'Z'
  }

  predicate IsLowerLetter(c: char) {
    'a' <= c <= 'z'
  }

  /** A text made only of whitespace (the empty text included). */
  predicate IsBlank(s: string) {
    forall k :: 0 <= k < |s| ==> IsSpace(s[k])
  }

  /** `needle` occurs in `haystack` starting at index i. */
  predicate OccursAt(haystack: string, needle: string, i: int) {
    0 <= i <= |haystack| - |needle| && haystack[i..i + |needle|] == needle
  }

  /** The number of whitespace characters s starts with. */
  function LeadingSpaces(s: string): (n: nat)
    ensures n <= |s|
    ensures forall k :: 0 <= k < n ==> IsSpace(s[k])
    ensures n < |s| ==> !IsSpace(s[n])
  {
    if s != [] && IsSpace(s[0]) then 1 + LeadingSpaces(s[1..]) else 0
  }

  /** The leading whitespace removed: the longest suffix that starts with a non-space. */
  function StripLeft(s: string): (r: string)
    ensures |r| <= |s| && r == s[|s| - |r|..]
    ensures forall k :: 0 <= k < |s| - |r| ==> IsSpace(s[k])
    ensures r != [] ==> !IsSpace(r[0])
    ensures r == [] <==> IsBlank(s)
  {
    s[LeadingSpaces(s)..]
  }

  /** The trailing whitespace removed: the longest prefix that ends with a non-space. */
  function StripRight(s: string): (r: string)
    ensures |r| <= |s| && r == s[..|r|]
    ensures forall k :: |r| <= k < |s| ==> IsSpace(s[k])
    ensures r != [] ==> !IsSpace(r[|r| - 1])
    ensures r == [] <==> IsBlank(s)
  {
    if s != [] && IsSpace(s[|s| - 1]) then StripRight(s[..|s| - 1]) else s
  }

  /** r is s with the whitespace before index i and after r removed. */
  predicate StrippedAt(s: string, r: string, i: int) {
    OccursAt(s, r, i) && IsBlank(s[..i]) && IsBlank(s[i + |r|..])
  }

  /** str.strip(): s without its leading and trailing whitespace. */
  function Strip(s: string): (r: string)
    ensures |r| <= |s|
    ensures exists i :: StrippedAt(s, r, i)
    ensures r != [] ==> !IsSpace(r[0]) && !IsSpace(r[|r| - 1])
    ensures r == [] <==> IsBlank(s)
  {
    StripBothEnds(s);
    StripRight(StripLeft(s))
  }

  lemma StripBothEnds(s: string)
    ensures StrippedAt(s, StripRight(StripLeft(s)), |s| - |StripLeft(s)|)
    ensures StripRight(StripLeft(s)) == [] <==> IsBlank(s)
  {
    var t := StripLeft(s);
    var r := StripRight(t);
    SliceFacts(s, t, r);
    assert t != [] ==> !IsBlank(t);
  }

  lemma SliceFacts(s: string, t: string, r: string)
    requires |t| <= |s| && t == s[|s| - |t|..]
    requires forall k :: 0 <= k < |s| - |t| ==> IsSpace(s[k])
    requires |r| <= |t| && r == t[..|r|]
    requires forall k :: |r| <= k < |t| ==> IsSpace(t[k])
    ensures StrippedAt(s, r, |s| - |t|)
  {
    var i := |s| - |t|;
    assert s[i..i + |r|] == r;
    assert IsBlank(s[..i]) by {
      forall k | 0 <= k < i ensures IsSpace(s[..i][k]) { }
    }
    assert IsBlank(s[i + |r|..]) by {
      var rest := s[i + |r|..];
      forall k | 0 <= k < |rest| ensures IsSpace(rest[k]) {
        assert rest[k] == t[|r| + k];
      }
    }
  }

  /** Stripping a text that is blank at neither end changes nothing. */
  lemma StripTrimmed(s: string)
    requires s != [] ==> !IsSpace(s[0]) && !IsSpace(s[|s| - 1])
    ensures Strip(s) == s
  {
    assert StripLeft(s) == s;
    assert StripRight(s) == s;
  }

  /** A newline after a stripped, non-empty text is all that strip removes. */
  lemma StripTrailingNewline(s: string)
    requires s != [] && Strip(s) == s
    ensures Strip(s + "\n") == s
  {
    var t := s + "\n";
    assert t[0] == s[0] && t[|t| - 1] == '\n';
    assert StripLeft(t) == t;
    assert t[..|t| - 1] == s;
    assert StripRight(s) == s;
  }

  /** Stripping twice is stripping once. */
  lemma StripIdempotent(s: string)
    ensures Strip(Strip(s)) == Strip(s)
  {
    var t := Strip(s);
    assert StripLeft(t) == t;
    assert StripRight(t) == t;
  }

  function UpperChar(c: char): (u: char)
    ensures IsSpace(u) <==> IsSpace(c)
  {
    if IsLowerLetter(c) then c - 'a' + 'A' else c
  }

  function LowerChar(c: char): char {
    if IsUpperLetter(c) then c - 'A' + 'a' else c
  }

  /** str.upper() (and SQL UPPER) on ASCII: each lower-case letter replaced by its capital. */
  function Upper(s: string): (r: string)
    ensures |r| == |s|
    ensures forall k :: 0 <= k < |s| ==> r[k] == UpperChar(s[k])
  {
    seq(|s|, k requires 0 <= k < |s| => UpperChar(s[k]))
  }

  /** SQL LOWER on ASCII, used for case-insensitive matching. */
  function Lower(s: string): (r: string)
    ensures |r| == |s|
    ensures forall k :: 0 <= k < |s| ==> r[k] == LowerChar(s[k])
  {
    seq(|s|, k requires 0 <= k < |s| => LowerChar(s[k]))
  }

  /** Upper-casing is idempotent, so a stored upper-case text compares equal to its UPPER. */
  lemma UpperIdempotent(s: string)
    ensures Upper(Upper(s)) == Upper(s)
  {
  }

  /** Upper-casing a stripped text leaves it stripped: no letter becomes whitespace. */
  lemma UpperKeepsStripped(s: string)
    requires Strip(s) == s
    ensures Strip(Upper(s)) == Upper(s)
  {
    StripTrimmed(Upper(s));
  }

  /** A text with no lower-case letter is its own upper-case form. */
  lemma UpperFixed(s: string)
    requires forall k :: 0 <= k < |s| ==> !IsLowerLetter(s[k])
    ensures Upper(s) == s
  {
  }

  /** str.isdigit() on ASCII: non-empty and all decimal digits. */
  predicate IsDigits(s: string) {
    s != [] && forall k :: 0 <= k < |s| ==> IsDigit(s[k])
  }

  /** Whether needle occurs in haystack as a contiguous block (SQL `LIKE '%needle%'`). */
  function Contains(haystack: string, needle: string): (b: bool)
    decreases |haystack|
  {
    if |needle| > |haystack| then false
    else if haystack[..|needle|] == needle then true
    else Contains(haystack[1..], needle)
  }

  /** The scanning test agrees with the definition of a substring, in both directions. */
  lemma {:induction false} ContainsIff(haystack: string, needle: string)
    ensures Contains(haystack, needle) <==> exists i :: OccursAt(haystack, needle, i)
    decreases |haystack|
  {
    if |needle| > |haystack| {
    } else if haystack[..|needle|] == needle {
      assert OccursAt(haystack, needle, 0);
    } else {
      ContainsIff(haystack[1..], needle);
      if Contains(haystack, needle) {
        var i :| OccursAt(haystack[1..], needle, i);
        assert OccursAt(haystack, needle, i + 1);
      }
      forall i | OccursAt(haystack, needle, i) ensures Contains(haystack, needle) {
        assert i != 0;
        assert OccursAt(haystack[1..], needle, i - 1);
      }
    }
  }

  /** The empty pattern `'%%'` matches every text. */
  lemma ContainsEmpty(haystack: string)
    ensures Contains(haystack, [])
  {
    assert haystack[..0] == [];
  }

  /** The longest prefix of s without whitespace. */
  function TakeWord(s: string): (r: string)
    ensures |r| <= |s| && r == s[..|r|]
    ensures forall k :: 0 <= k < |r| ==> !IsSpace(r[k])
    ensures |r| < |s| ==> IsSpace(s[|r|])
  {
    if s == [] || IsSpace(s[0]) then [] else [s[0]] + TakeWord(s[1..])
  }

  /**
   * str.split()[0]: the first maximal run of non-whitespace; None where
   * Python raises IndexError because the text is blank.
   */
  function FirstWord(s: string): (r: Option<string>)
    ensures r.None? <==> IsBlank(s)
    ensures r.Some? ==> r.value != [] && forall k :: 0 <= k < |r.value| ==> !IsSpace(r.value[k])
    ensures r.Some? ==> r.value == TakeWord(StripLeft(s))
  {
    if s == [] then None
    else if IsSpace(s[0]) then
      assert IsBlank(s[1..]) ==> IsBlank(s) by {
        assert forall k :: 1 <= k < |s| ==> s[k] == s[1..][k - 1];
      }
      assert StripLeft(s) == StripLeft(s[1..]);
      FirstWord(s[1..])
    else Some(TakeWord(s))
  }

  /** The text before the first ' ' (the whole text when there is none). */
  function BeforeSpace(s: string): (r: string)
    ensures |r| <= |s| && r == s[..|r|]
    ensures forall k :: 0 <= k < |r| ==> r[k] != ' '
    ensures |r| < |s| ==> s[|r|] == ' '
  {
    if s == [] || s[0] == ' ' then [] else [s[0]] + BeforeSpace(s[1..])
  }

  /** str.split(' ')[0], which always exists, agrees with str.split()[0] on a text without tabs or newlines that starts with a non-space. */
  lemma {:induction false} BeforeSpaceIsFirstWord(s: string)
    requires s != [] && s[0] != ' '
    requires forall k :: 0 <= k < |s| ==> (IsSpace(s[k]) <==> s[k] == ' ')
    ensures FirstWord(s) == Some(BeforeSpace(s))
  {
    TakeWordBeforeSpace(s);
  }

  lemma {:induction false} TakeWordBeforeSpace(s: string)
    requires forall k :: 0 <= k < |s| ==> (IsSpace(s[k]) <==> s[k] == ' ')
    ensures TakeWord(s) == BeforeSpace(s)
  {
    if s != [] && s[0] != ' ' {
      TakeWordBeforeSpace(s[1..]);
    }
  }
}
