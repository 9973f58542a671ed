/**
 * The vehicle-number pattern shared by the booking form's Regexp validator
 * (forms/forms.py) and the booking handler (user/user.py):
 *
 *   ^(?:[A-Z]{2}\d{2}[A-Z]{1,2}\d{1,4}|\d{2}BH\d{4}[A-Z]{2})$
 *
 * written as a hand-coded scanner over ASCII characters, together with a
 * reference reading of the pattern (one existential per repetition range)
 * that the scanner is proved equal to.
 */
module Plate {
  import opened Text

  predicate AllUpper(s: string) {
    forall k :: 0 <= k < |s| ==> IsUpperLetter(s[k])
  }

  predicate AllDigits(s: string) {
    forall k :: 0 <= k < |s| ==> IsDigit(s[k])
  }

  /**
   * Standard Indian plate, scanned left to right: two letters, two digits,
   * one series letter, an optional second series letter, then one to four
   * digits to the end. The regex has no other way to split the text: a
   * letter at index 5 can only belong to the series.
   */
  predicate IsStandardPlate(s: string) {
    && 6 <= |s| <= 10
    && IsUpperLetter(s[0]) && IsUpperLetter(s[1])
    && IsDigit(s[2]) && IsDigit(s[3])
    && IsUpperLetter(s[4])
    && var tail := if IsUpperLetter(s[5]) then 6 else 5;
       1 <= |s| - tail <= 4 && AllDigits(s[tail..])
  }

  /** BH-series plate: two digits, "BH", four digits, two letters. */
  predicate IsBharatPlate(s: string) {
    && |s| == 10
    && IsDigit(s[0]) && IsDigit(s[1])
    && s[2] == 'B' && s[3] == 'H'
    && AllDigits(s[4..8])
    && IsUpperLetter(s[8]) && IsUpperLetter(s[9])
  }

  /** The whole pattern, anchored at both ends. */
  predicate IsValidPlate(s: string) {
    IsStandardPlate(s) || IsBharatPlate(s)
  }

  /**
   * `re.match` of the anchored pattern. Python's `$` also matches just
   * before one final "\n", so a plate followed by a newline matches too.
   */
  predicate PatternMatches(s: string) {
    IsValidPlate(s) || (s != [] && s[|s| - 1] == '\n' && IsValidPlate(s[..|s| - 1]))
  }

  /** On a stripped text the pattern matches exactly the plates: no final newline is left for `$` to skip. */
  lemma StrippedMatchIsPlate(s: string)
    requires Strip(s) == s
    ensures PatternMatches(s) <==> IsValidPlate(s)
  {
    if s != [] && s[|s| - 1] == '\n' {
      assert IsSpace(s[|s| - 1]);
    }
  }

  /** A plate typed with a final newline passes the pattern although it is not itself a plate. */
  lemma TrailingNewlineMatches()
    ensures PatternMatches("MH12AA7842\n") && !IsValidPlate("MH12AA7842\n")
  {
    assert "MH12AA7842\n"[..10] == "MH12AA7842";
    ExamplesAccepted();
  }

  /** `[A-Z]{2}\d{2}[A-Z]{l}\d{d}` for a series length l in 1..2 and d = |s| - 4 - l in 1..4. */
  predicate StandardSplit(s: string, l: int) {
    && 1 <= l <= 2 && 1 <= |s| - 4 - l <= 4
    && AllUpper(s[..2]) && AllDigits(s[2..4])
    && AllUpper(s[4..4 + l]) && AllDigits(s[4 + l..])
  }

  /** `\d{2}BH\d{4}[A-Z]{2}` read literally as a concatenation. */
  predicate BharatSplit(s: string) {
    && |s| == 10
    && AllDigits(s[..2]) && s[2..4] == "BH"
    && AllDigits(s[4..8]) && AllUpper(s[8..])
  }

  /** The scanner accepts exactly the texts the pattern's first alternative matches. */
  lemma StandardPlateIff(s: string)
    ensures IsStandardPlate(s) <==> exists l :: StandardSplit(s, l)
  {
    if IsStandardPlate(s) {
      var l := if IsUpperLetter(s[5]) then 2 else 1;
      assert StandardSplit(s, l);
    }
    forall l | StandardSplit(s, l) ensures IsStandardPlate(s) {
      assert s[0] == s[..2][0] && s[1] == s[..2][1];
      assert s[2] == s[2..4][0] && s[3] == s[2..4][1];
      assert s[4] == s[4..4 + l][0];
      assert s[5] == (if l == 2 then s[4..4 + l][1] else s[4 + l..][0]);
    }
  }

  /** The scanner accepts exactly the texts the pattern's second alternative matches. */
  lemma BharatPlateIff(s: string)
    ensures IsBharatPlate(s) <==> BharatSplit(s)
  {
    if BharatSplit(s) {
      assert s[0] == s[..2][0] && s[1] == s[..2][1];
      assert s[2] == s[2..4][0] && s[3] == s[2..4][1];
      assert s[8] == s[8..][0] && s[9] == s[8..][1];
    }
  }

  /** The two alternatives never overlap: one starts with a letter, the other with a digit. */
  lemma PlateFormsDisjoint(s: string)
    ensures !(IsStandardPlate(s) && IsBharatPlate(s))
  {
  }

  /** An accepted number is 6 to 10 characters long, so it fits the 15-character column. */
  lemma ValidPlateLength(s: string)
    requires IsValidPlate(s)
    ensures 6 <= |s| <= 10
  {
  }

  /** An accepted number holds only capitals and digits: stripping and upper-casing leave it as it is. */
  lemma ValidPlateIsNormal(s: string)
    requires IsValidPlate(s)
    ensures forall k :: 0 <= k < |s| ==> IsUpperLetter(s[k]) || IsDigit(s[k])
    ensures Strip(s) == s && Upper(s) == s
  {
    if IsStandardPlate(s) {
      var tail := if IsUpperLetter(s[5]) then 6 else 5;
      forall k | tail <= k < |s| ensures IsDigit(s[k]) {
        assert s[k] == s[tail..][k - tail];
      }
    } else {
      forall k | 4 <= k < 8 ensures IsDigit(s[k]) {
        assert s[k] == s[4..8][k - 4];
      }
    }
    StripTrimmed(s);
  }

  /** The two examples quoted in the form's error message are accepted. */
  lemma ExamplesAccepted()
    ensures IsValidPlate("MH12AA7842")
    ensures IsValidPlate("22BH1489AA")
  {
    assert IsStandardPlate("MH12AA7842");
    assert IsBharatPlate("22BH1489AA") by {
      assert "22BH1489AA"[4..8] == "1489";
    }
  }

  /** Texts the pattern refuses: lower case, a missing series letter, a fifth trailing digit, a BH number with three leading digits. */
  lemma ExamplesRefused()
    ensures !IsValidPlate("mh12aa7842")
    ensures !IsValidPlate("MH127842")
    ensures !IsValidPlate("MH12A78421")
    ensures !IsValidPlate("222BH1489A")
  {
  }
}
