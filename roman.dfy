/**
 * `ToArabic` of roman.go: the "nulla" literal, the normaliser, the value
 * resolution, and the error returned alongside the best-guess value.
 */
module Roman {
  import opened Wrappers
  import opened Tables
  import opened Decimal
  import opened Normalizer
  import opened Resolver

  /** The error `ToArabic` returns when a letter without a value reaches the resolver. */
  function InternalError(c: char): (m: string)
    ensures |m| > |InternalPrefix| && UnquoteRune(m[|InternalPrefix|..]) == Some(c)
    ensures forall fs :: Render(fs) != Some(m)
  {
    var m := InternalPrefix + QuoteRune(c);
    QuoteRuneRoundTrip(c);
    assert m[|InternalPrefix|..] == QuoteRune(c);
    forall fs | fs != []
      ensures Render(fs) != Some(m)
    {
      RenderPrefix(fs);
      assert m[0] != SymbolPrefix[0];
    }
    m
  }

  const InternalPrefix := "internal error, unexpected character "

  /** What `ToArabic(roman)` returns: the decimal value and the error (None for nil). */
  function Arabic(roman: string): (string, Option<string>) {
    if roman == "nulla" then ("0", None)
    else
      match Resolve(Letters(roman))
      case Err(c) => ("", Some(InternalError(c)))
      case Ok(n) => (IntToDecimal(n), Render(Failures(roman, 0)))
  }

  /**
   * `ToArabic`: converts a Roman numeral to its decimal representation,
   * making a best guess on malformed input and returning the normaliser's
   * error beside it.
   */
  method ToArabic(roman: string) returns (value: string, err: Option<string>)
    ensures (value, err) == Arabic(roman)
  {
    if roman == "nulla" {
      return "0", None;
    }
    var letters, normErr := TransformInput(roman);
    var resolved := ResolveLetters(letters);
    match resolved
    case Err(c) =>
      return "", Some(InternalError(c));
    case Ok(result) =>
      return IntToDecimal(result), normErr;
  }

  /**
   * Apart from "nulla", the internal-error return is unreachable: the value
   * is the lookahead sum of the normalised letters, never negative, and the
   * error is the normaliser's, unchanged.
   */
  lemma ArabicResult(roman: string)
    requires roman != "nulla"
    ensures IsRomanLetters(Letters(roman))
    ensures var n := LookaheadSum(Letters(roman), |Letters(roman)|);
      n >= 0 && Arabic(roman) == (NatToDecimal(n), Render(Failures(roman, 0)))
  {
    var letters := Letters(roman);
    LettersAreRoman(roman);
    LookaheadRule(letters);
    ResolvePositive(letters);
  }

  /** "nulla" is zero without error; the match is on the whole, exact input. */
  lemma NullaIsZero()
    ensures Arabic("nulla") == ("0", None)
  {
  }

  /**
   * Without the literal check "nulla" would be read as l, l = 100, with
   * errors for n, u and a at bytes 0, 1 and 4.
   */
  lemma NullaWithoutLiteralCheck()
    ensures Letters("nulla") == "LL"
    ensures Resolve(Letters("nulla")) == Ok(100)
    ensures Failures("nulla", 0) == [Failure(0, 'n'), Failure(1, 'u'), Failure(4, 'a')]
  {
    NullaLetters();
    NullaFailures();
    assert "LL"[1..] == "L" && "L"[1..] == "";
    assert Resolve("L") == Ok(50);
  }

  // "nulla" worked out one rune at a time from the last: `NullaLettersFromK`
  // and `NullaFailuresFromK` are about the input with its first K runes removed.

  lemma NullaLettersFrom4()
    ensures Letters("a") == ""
  {
  }

  lemma NullaLettersFrom3()
    ensures Letters("la") == "L"
  {
    assert "la"[1..] == "a";
    NullaLettersFrom4();
  }

  lemma NullaLettersFrom2()
    ensures Letters("lla") == "LL"
  {
    assert "lla"[1..] == "la";
    NullaLettersFrom3();
  }

  lemma NullaLettersFrom1()
    ensures Letters("ulla") == "LL"
  {
    assert "ulla"[1..] == "lla";
    NullaLettersFrom2();
  }

  lemma NullaLetters()
    ensures Letters("nulla") == "LL"
  {
    assert "nulla"[1..] == "ulla";
    NullaLettersFrom1();
  }

  lemma NullaFailuresFrom4()
    ensures Failures("a", 4) == [Failure(4, 'a')]
  {
  }

  lemma NullaFailuresFrom3()
    ensures Failures("la", 3) == [Failure(4, 'a')]
  {
    assert "la"[1..] == "a";
    NullaFailuresFrom4();
  }

  lemma NullaFailuresFrom2()
    ensures Failures("lla", 2) == [Failure(4, 'a')]
  {
    assert "lla"[1..] == "la";
    NullaFailuresFrom3();
  }

  lemma NullaFailuresFrom1()
    ensures Failures("ulla", 1) == [Failure(1, 'u'), Failure(4, 'a')]
  {
    assert "ulla"[1..] == "lla";
    NullaFailuresFrom2();
  }

  lemma NullaFailures()
    ensures Failures("nulla", 0) == [Failure(0, 'n'), Failure(1, 'u'), Failure(4, 'a')]
  {
    assert "nulla"[1..] == "ulla";
    NullaFailuresFrom1();
  }

  /** Apart from "nulla", the error is nil exactly when every rune of the input is accepted. */
  lemma ErrorIffUnrecognized(roman: string)
    requires roman != "nulla"
    ensures Arabic(roman).1 == None <==> forall k :: 0 <= k < |roman| ==> roman[k] in UnicodeToAsciiRoman
  {
    ArabicResult(roman);
    NoFailuresIff(roman, 0);
  }

  /** An input of canonical letters only is converted without error. */
  lemma CanonicalInputHasNoError(roman: string)
    requires IsRomanLetters(roman)
    ensures Arabic(roman).1 == None
  {
    if roman != "nulla" {
      forall k | 0 <= k < |roman|
        ensures roman[k] in UnicodeToAsciiRoman
      {
        UpperCaseAccepted(roman[k]);
      }
      ErrorIffUnrecognized(roman);
    }
  }

  /**
   * Best guess: the value for any input is the value, obtained without error,
   * of the input with its unrecognised runes removed.
   */
  lemma BestGuessIgnoresUnrecognized(roman: string)
    requires roman != "nulla"
    ensures Recognized(roman) != "nulla"
    ensures Arabic(Recognized(roman)).1 == None
    ensures Arabic(roman).0 == Arabic(Recognized(roman)).0
  {
    var r := Recognized(roman);
    assert "nulla"[0] !in UnicodeToAsciiRoman;
    ArabicResult(roman);
    ArabicResult(r);
    LettersOfRecognized(roman);
    NoFailuresIff(r, 0);
  }

  /** ("0", nil) comes back for exactly two inputs: "nulla" and the empty string. */
  lemma ZeroWithoutError(roman: string)
    ensures Arabic(roman) == ("0", None) <==> roman == "nulla" || roman == ""
  {
    if roman == "" {
      assert Letters(roman) == [];
    } else if roman != "nulla" {
      ArabicResult(roman);
      ErrorIffUnrecognized(roman);
      var letters := Letters(roman);
      if Arabic(roman).1 == None {
        LettersNonEmpty(roman);
        LookaheadRule(letters);
        ResolvePositive(letters);
        IntToDecimalInjective(LookaheadSum(letters, |letters|), 0);
      }
    }
  }

  /** A glyph whose expansion `e` has lookahead sum `v` resolves to `v`. */
  lemma GlyphValue(glyph: char, e: string, v: int)
    requires glyph in UnicodeToAsciiRoman && UnicodeToAsciiRoman[glyph] == e
    requires IsRomanLetters(e) && LookaheadSum(e, |e|) == v
    ensures Resolve(UnicodeToAsciiRoman[glyph]) == Ok(v)
  {
    LookaheadRule(e);
  }

  /** The glyphs U+2160..U+2162 (Ⅰ..Ⅲ) stand for 1..3. */
  lemma NumberFormsOneToThree()
    ensures Resolve(UnicodeToAsciiRoman['\U{2160}']) == Ok(1)
    ensures Resolve(UnicodeToAsciiRoman['\U{2161}']) == Ok(2)
    ensures Resolve(UnicodeToAsciiRoman['\U{2162}']) == Ok(3)
  {
    GlyphValue('\U{2160}', "I", 1);
    GlyphValue('\U{2161}', "II", 2);
    GlyphValue('\U{2162}', "III", 3);
  }

  /** The glyphs U+2163..U+2165 (Ⅳ..Ⅵ) stand for 4..6. */
  lemma NumberFormsFourToSix()
    ensures Resolve(UnicodeToAsciiRoman['\U{2163}']) == Ok(4)
    ensures Resolve(UnicodeToAsciiRoman['\U{2164}']) == Ok(5)
    ensures Resolve(UnicodeToAsciiRoman['\U{2165}']) == Ok(6)
  {
    GlyphValue('\U{2163}', "IV", 4);
    GlyphValue('\U{2164}', "V", 5);
    GlyphValue('\U{2165}', "VI", 6);
  }

  /** The glyphs U+2166..U+2168 (Ⅶ..Ⅸ) stand for 7..9. */
  lemma NumberFormsSevenToNine()
    ensures Resolve(UnicodeToAsciiRoman['\U{2166}']) == Ok(7)
    ensures Resolve(UnicodeToAsciiRoman['\U{2167}']) == Ok(8)
    ensures Resolve(UnicodeToAsciiRoman['\U{2168}']) == Ok(9)
  {
    GlyphValue('\U{2166}', "VII", 7);
    GlyphValue('\U{2167}', "VIII", 8);
    GlyphValue('\U{2168}', "IX", 9);
  }

  /** The glyphs U+2169..U+216B (Ⅹ..Ⅻ) stand for 10..12. */
  lemma NumberFormsTenToTwelve()
    ensures Resolve(UnicodeToAsciiRoman['\U{2169}']) == Ok(10)
    ensures Resolve(UnicodeToAsciiRoman['\U{216A}']) == Ok(11)
    ensures Resolve(UnicodeToAsciiRoman['\U{216B}']) == Ok(12)
  {
    GlyphValue('\U{2169}', "X", 10);
    GlyphValue('\U{216A}', "XI", 11);
    GlyphValue('\U{216B}', "XII", 12);
  }

  /** The glyphs U+216C..U+216F (Ⅼ, Ⅽ, Ⅾ, Ⅿ) stand for 50, 100, 500 and 1000. */
  lemma NumberFormsLetters()
    ensures Resolve(UnicodeToAsciiRoman['\U{216C}']) == Ok(50)
    ensures Resolve(UnicodeToAsciiRoman['\U{216D}']) == Ok(100)
    ensures Resolve(UnicodeToAsciiRoman['\U{216E}']) == Ok(500)
    ensures Resolve(UnicodeToAsciiRoman['\U{216F}']) == Ok(1000)
  {
    GlyphValue('\U{216C}', "L", 50);
    GlyphValue('\U{216D}', "C", 100);
    GlyphValue('\U{216E}', "D", 500);
    GlyphValue('\U{216F}', "M", 1000);
  }
}
