/**
 * The two constant tables of roman.go: the value of each canonical numeral
 * letter, and the expansion of every accepted input rune into canonical
 * letters (ASCII upper and lower case, and the glyphs of the Unicode
 * "Number Forms" block, U+2160 to U+216F).
 */
module Tables {

  /** `romanToInt`: the magnitude of each canonical letter. */
  const RomanToInt: map<char, int> := map[
    'I' := 1,
    'V' := 5,
    'X' := 10,
    'L' := 50,
    'C' := 100,
    'D' := 500,
    'M' := 1000
  ]

  /** `unicodeToASCIIRomanMapping`: the canonical letters each accepted rune stands for. */
  const UnicodeToAsciiRoman: map<char, string> := map[
    'I' := "I",
    'V' := "V",
    'X' := "X",
    'L' := "L",
    'C' := "C",
    'D' := "D",
    'M' := "M",
    'i' := "I",
    'v' := "V",
    'x' := "X",
    'l' := "L",
    'c' := "C",
    'd' := "D",
    'm' := "M",
    '\U{2160}' := "I",     // ROMAN NUMERAL ONE
    '\U{2161}' := "II",    // ROMAN NUMERAL TWO
    '\U{2162}' := "III",   // ROMAN NUMERAL THREE
    '\U{2163}' := "IV",    // ROMAN NUMERAL FOUR
    '\U{2164}' := "V",     // ROMAN NUMERAL FIVE
    '\U{2165}' := "VI",    // ROMAN NUMERAL SIX
    '\U{2166}' := "VII",   // ROMAN NUMERAL SEVEN
    '\U{2167}' := "VIII",  // ROMAN NUMERAL EIGHT
    '\U{2168}' := "IX",    // ROMAN NUMERAL NINE
    '\U{2169}' := "X",     // ROMAN NUMERAL TEN
    '\U{216A}' := "XI",    // ROMAN NUMERAL ELEVEN
    '\U{216B}' := "XII",   // ROMAN NUMERAL TWELVE
    '\U{216C}' := "L",     // ROMAN NUMERAL FIFTY
    '\U{216D}' := "C",     // ROMAN NUMERAL ONE HUNDRED
    '\U{216E}' := "D",     // ROMAN NUMERAL FIVE HUNDRED
    '\U{216F}' := "M"      // ROMAN NUMERAL ONE THOUSAND
  ]

  /** A sequence made of canonical letters only, i.e. keys of RomanToInt. */
  predicate IsRomanLetters(s: seq<char>) {
    forall k :: 0 <= k < |s| ==> s[k] in RomanToInt
  }

  /** The ASCII lower-case form of an upper-case letter. */
  function LowerCase(c: char): (l: char)
    ensures 'A' <= c <= 'Z' ==> 'a' <= l <= 'z' && l as int == c as int + 32
  {
    if 'A' <= c <= 'Z' then (c as int + 32) as char else c
  }

  /** Every letter has a positive magnitude. */
  lemma LetterValuesPositive()
    ensures forall c :: c in RomanToInt ==> RomanToInt[c] > 0
  {
  }

  /**
   * The expansion table only ever produces canonical letters, and never the
   * empty string: every accepted rune contributes at least one letter.
   */
  lemma ExpansionsAreRomanLetters()
    ensures forall c :: c in UnicodeToAsciiRoman ==>
      |UnicodeToAsciiRoman[c]| > 0 && IsRomanLetters(UnicodeToAsciiRoman[c])
  {
  }

  /** Each canonical letter is accepted and stands for itself. */
  lemma UpperCaseAccepted(c: char)
    requires c in RomanToInt
    ensures c in UnicodeToAsciiRoman && UnicodeToAsciiRoman[c] == [c]
  {
    assert c in "IVXLCDM";
  }

  /** The lower-case form of each canonical letter is accepted and stands for that letter. */
  lemma LowerCaseAccepted(c: char)
    requires c in RomanToInt
    ensures LowerCase(c) in UnicodeToAsciiRoman && UnicodeToAsciiRoman[LowerCase(c)] == [c]
  {
    assert c in "IVXLCDM";
  }

  /** The accepted runes are exactly the seven letters, their lower-case forms and U+2160..U+216F. */
  lemma AcceptedRunes(c: char)
    ensures c in UnicodeToAsciiRoman <==>
      c in RomanToInt || ('a' <= c <= 'z' && (c as int - 32) as char in RomanToInt) ||
      0x2160 <= c as int <= 0x216F
  {
  }
}
