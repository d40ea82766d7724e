/**
 * The input/output pairs that roman_test.go checks, stated on the model of
 * `ToArabic`. The empty input is the exception: the code returns "0" and no
 * error, which is what is stated here.
 */
module Vectors {
  import opened Wrappers
  import opened Tables
  import opened Decimal
  import opened Normalizer
  import opened Resolver
  import opened Roman

  /** An input of canonical letters converts without error to its lookahead sum. */
  lemma Canonical(s: string, v: nat)
    requires IsRomanLetters(s) && LookaheadSum(s, |s|) == v
    ensures Arabic(s) == (NatToDecimal(v), None)
  {
    if |s| > 0 {
      assert s[0] in RomanToInt;
    }
    ArabicResult(s);
    LettersOfCanonical(s);
    CanonicalInputHasNoError(s);
  }

  /** An input whose letters and failures are known converts to their sum and rendered error. */
  lemma WithFailures(s: string, letters: seq<char>, fs: seq<Failure>, v: nat)
    requires s != "nulla" && Letters(s) == letters && Failures(s, 0) == fs
    requires IsRomanLetters(letters) && LookaheadSum(letters, |letters|) == v
    ensures Arabic(s) == (NatToDecimal(v), Render(fs))
  {
    ArabicResult(s);
  }

  // Single letters (roman_test.go:13-19).

  lemma VectorI()
    ensures Arabic("I") == ("1", None)
  {
    assert NatToDecimal(1) == "1";
    Canonical("I", 1);
  }

  lemma VectorV()
    ensures Arabic("V") == ("5", None)
  {
    assert NatToDecimal(5) == "5";
    Canonical("V", 5);
  }

  lemma VectorX()
    ensures Arabic("X") == ("10", None)
  {
    assert NatToDecimal(10) == "10";
    Canonical("X", 10);
  }

  lemma VectorL()
    ensures Arabic("L") == ("50", None)
  {
    assert NatToDecimal(50) == "50";
    Canonical("L", 50);
  }

  lemma VectorC()
    ensures Arabic("C") == ("100", None)
  {
    assert NatToDecimal(100) == "100";
    Canonical("C", 100);
  }

  lemma VectorD()
    ensures Arabic("D") == ("500", None)
  {
    assert NatToDecimal(500) == "500";
    Canonical("D", 500);
  }

  lemma VectorM()
    ensures Arabic("M") == ("1000", None)
  {
    assert NatToDecimal(1000) == "1000";
    Canonical("M", 1000);
  }

  // Additive notation (roman_test.go:21-24).

  lemma VectorIII()
    ensures Arabic("III") == ("3", None)
  {
    assert NatToDecimal(3) == "3";
    Canonical("III", 3);
  }

  lemma VectorIIIIIIIIII()
    ensures Arabic("IIIIIIIIII") == ("10", None)
  {
    assert NatToDecimal(10) == "10";
    Canonical("IIIIIIIIII", 10);
  }

  lemma VectorXXX()
    ensures Arabic("XXX") == ("30", None)
  {
    assert NatToDecimal(30) == "30";
    Canonical("XXX", 30);
  }

  lemma VectorMDCLXVI()
    ensures Arabic("MDCLXVI") == ("1666", None)
  {
    assert NatToDecimal(1666) == "1666";
    Canonical("MDCLXVI", 1666);
  }

  // Classical subtractive pairs (roman_test.go:26-31).

  lemma VectorIV()
    ensures Arabic("IV") == ("4", None)
  {
    assert NatToDecimal(4) == "4";
    Canonical("IV", 4);
  }

  lemma VectorIX()
    ensures Arabic("IX") == ("9", None)
  {
    assert NatToDecimal(9) == "9";
    Canonical("IX", 9);
  }

  lemma VectorXL()
    ensures Arabic("XL") == ("40", None)
  {
    assert NatToDecimal(40) == "40";
    Canonical("XL", 40);
  }

  lemma VectorXC()
    ensures Arabic("XC") == ("90", None)
  {
    assert NatToDecimal(90) == "90";
    Canonical("XC", 90);
  }

  lemma VectorCD()
    ensures Arabic("CD") == ("400", None)
  {
    assert NatToDecimal(400) == "400";
    Canonical("CD", 400);
  }

  lemma VectorCM()
    ensures Arabic("CM") == ("900", None)
  {
    assert NatToDecimal(900) == "900";
    Canonical("CM", 900);
  }

  // Irregular subtractive notation: 1 - 1 + 10, and 1 - 1 - 10 + 50 + 50 (roman_test.go:33-34).

  lemma VectorIIX()
    ensures Arabic("IIX") == ("10", None)
  {
    assert NatToDecimal(10) == "10";
    Canonical("IIX", 10);
  }

  lemma VectorIIXLL()
    ensures Arabic("IIXLL") == ("90", None)
  {
    assert NatToDecimal(90) == "90";
    Canonical("IIXLL", 90);
  }

  // The forms a spreadsheet's ROMAN() function gives for 499 and 495 (roman_test.go:36-44).

  lemma VectorCDXCIX()
    ensures Arabic("CDXCIX") == ("499", None)
  {
    assert NatToDecimal(499) == "499";
    Canonical("CDXCIX", 499);
  }

  lemma VectorLDVLIV()
    ensures Arabic("LDVLIV") == ("499", None)
  {
    assert NatToDecimal(499) == "499";
    Canonical("LDVLIV", 499);
  }

  lemma VectorXDIX()
    ensures Arabic("XDIX") == ("499", None)
  {
    assert NatToDecimal(499) == "499";
    Canonical("XDIX", 499);
  }

  lemma VectorVDIV()
    ensures Arabic("VDIV") == ("499", None)
  {
    assert NatToDecimal(499) == "499";
    Canonical("VDIV", 499);
  }

  lemma VectorID()
    ensures Arabic("ID") == ("499", None)
  {
    assert NatToDecimal(499) == "499";
    Canonical("ID", 499);
  }

  lemma VectorCDXCV()
    ensures Arabic("CDXCV") == ("495", None)
  {
    assert NatToDecimal(495) == "495";
    Canonical("CDXCV", 495);
  }

  lemma VectorLDVL()
    ensures Arabic("LDVL") == ("495", None)
  {
    assert NatToDecimal(495) == "495";
    Canonical("LDVL", 495);
  }

  lemma VectorXDV()
    ensures Arabic("XDV") == ("495", None)
  {
    assert NatToDecimal(495) == "495";
    Canonical("XDV", 495);
  }

  lemma VectorVD()
    ensures Arabic("VD") == ("495", None)
  {
    assert NatToDecimal(495) == "495";
    Canonical("VD", 495);
  }

  /** The empty input gives "0" and no error. */
  lemma EmptyInput()
    ensures Arabic("") == ("0", None)
  {
    Canonical("", 0);
  }

  // Number Forms glyphs, alone and next to each other (roman_test.go:46-48).

  lemma VectorSixGlyph()
    ensures Arabic("\U{2165}") == ("6", None)
  {
    assert "\U{2165}"[1..] == "";
    assert Letters("\U{2165}") == "VI";
    assert Failures("\U{2165}", 0) == [];
    assert NatToDecimal(6) == "6";
    WithFailures("\U{2165}", "VI", [], 6);
  }

  lemma VectorFiveOneGlyphs()
    ensures Arabic("\U{2164}\U{2160}") == ("6", None)
  {
    assert "\U{2164}\U{2160}"[1..] == "\U{2160}" && "\U{2160}"[1..] == "";
    assert Letters("\U{2160}") == "I";
    assert Letters("\U{2164}\U{2160}") == "VI";
    assert Failures("\U{2160}", 3) == [];
    assert Failures("\U{2164}\U{2160}", 0) == [];
    assert NatToDecimal(6) == "6";
    WithFailures("\U{2164}\U{2160}", "VI", [], 6);
  }

  // Inputs with unrecognised runes: a best guess and an error (roman_test.go:50-55, 76-83).

  /** The message for one failure, from the quoted rune and the decimal position. */
  lemma Message(f: Failure, quoted: string, position: string)
    requires QuoteRune(f.symbol) == quoted && NatToDecimal(f.pos) == position
    ensures UnexpectedSymbol(f) == "unexpected symbol " + quoted + " at position " + position
  {
  }

  lemma RenderOne(a: Failure)
    ensures Render([a]) == Some(UnexpectedSymbol(a))
  {
  }

  lemma RenderTwo(a: Failure, b: Failure)
    ensures Render([a, b]) == Some(UnexpectedSymbol(a) + ", " + UnexpectedSymbol(b))
  {
    assert [a, b][..1] == [a];
    assert Join([a]) == UnexpectedSymbol(a);
  }

  lemma RenderThree(a: Failure, b: Failure, c: Failure)
    ensures Render([a, b, c]) == Some(UnexpectedSymbol(a) + ", " + UnexpectedSymbol(b) + ", " + UnexpectedSymbol(c))
  {
    assert [a, b, c][..2] == [a, b];
    RenderTwo(a, b);
  }

  lemma SpaceAt(pos: nat, position: string)
    requires NatToDecimal(pos) == position
    ensures UnexpectedSymbol(Failure(pos, ' ')) == "unexpected symbol ' ' at position " + position
  {
    Message(Failure(pos, ' '), "' '", position);
  }

  // One lemma per message of the error vectors: the text `fmt` produces for each failure.

  lemma MessageSpace0()
    ensures UnexpectedSymbol(Failure(0, ' ')) == "unexpected symbol ' ' at position 0"
  {
    SpaceAt(0, "0");
  }

  lemma MessageSpace1()
    ensures UnexpectedSymbol(Failure(1, ' ')) == "unexpected symbol ' ' at position 1"
  {
    assert NatToDecimal(1) == "1";
    SpaceAt(1, "1");
  }

  lemma MessageSpace3()
    ensures UnexpectedSymbol(Failure(3, ' ')) == "unexpected symbol ' ' at position 3"
  {
    assert NatToDecimal(3) == "3";
    SpaceAt(3, "3");
  }

  lemma MessageSpace7()
    ensures UnexpectedSymbol(Failure(7, ' ')) == "unexpected symbol ' ' at position 7"
  {
    assert NatToDecimal(7) == "7";
    SpaceAt(7, "7");
  }

  lemma MessagePlus1()
    ensures UnexpectedSymbol(Failure(1, '+')) == "unexpected symbol '+' at position 1"
  {
    assert NatToDecimal(1) == "1";
    Message(Failure(1, '+'), "'+'", "1");
  }

  lemma MessageH0()
    ensures UnexpectedSymbol(Failure(0, 'H')) == "unexpected symbol 'H' at position 0"
  {
    Message(Failure(0, 'H'), "'H'", "0");
  }

  lemma MessageE1()
    ensures UnexpectedSymbol(Failure(1, 'E')) == "unexpected symbol 'E' at position 1"
  {
    assert NatToDecimal(1) == "1";
    Message(Failure(1, 'E'), "'E'", "1");
  }

  lemma MessageO4()
    ensures UnexpectedSymbol(Failure(4, 'O')) == "unexpected symbol 'O' at position 4"
  {
    assert NatToDecimal(4) == "4";
    Message(Failure(4, 'O'), "'O'", "4");
  }

  // The letters and failures of each error vector, worked out one rune at a
  // time from the last: `XLettersFromK` and `XFailuresFromK` are about the
  // input with its first K runes removed, starting at that rune's byte offset.

  lemma SpacedGlyphsLettersFrom4()
    ensures Letters("\U{2165}") == "VI"
  {
  }

  lemma SpacedGlyphsLettersFrom3()
    ensures Letters(" \U{2165}") == "VI"
  {
    assert " \U{2165}"[1..] == "\U{2165}";
    SpacedGlyphsLettersFrom4();
  }

  lemma SpacedGlyphsLettersFrom2()
    ensures Letters("\U{2163} \U{2165}") == "IVVI"
  {
    assert "\U{2163} \U{2165}"[1..] == " \U{2165}";
    SpacedGlyphsLettersFrom3();
  }

  lemma SpacedGlyphsLettersFrom1()
    ensures Letters(" \U{2163} \U{2165}") == "IVVI"
  {
    assert " \U{2163} \U{2165}"[1..] == "\U{2163} \U{2165}";
    SpacedGlyphsLettersFrom2();
  }

  lemma SpacedGlyphsLetters()
    ensures Letters("\U{2162} \U{2163} \U{2165}") == "IIIIVVI"
  {
    assert "\U{2162} \U{2163} \U{2165}"[1..] == " \U{2163} \U{2165}";
    SpacedGlyphsLettersFrom1();
  }

  lemma SpacedGlyphsFailuresFrom4()
    ensures Failures("\U{2165}", 8) == []
  {
  }

  lemma SpacedGlyphsFailuresFrom3()
    ensures Failures(" \U{2165}", 7) == [Failure(7, ' ')]
  {
    assert " \U{2165}"[1..] == "\U{2165}";
    SpacedGlyphsFailuresFrom4();
  }

  lemma SpacedGlyphsFailuresFrom2()
    ensures Failures("\U{2163} \U{2165}", 4) == [Failure(7, ' ')]
  {
    assert "\U{2163} \U{2165}"[1..] == " \U{2165}";
    SpacedGlyphsFailuresFrom3();
  }

  lemma SpacedGlyphsFailuresFrom1()
    ensures Failures(" \U{2163} \U{2165}", 3) == [Failure(3, ' '), Failure(7, ' ')]
  {
    assert " \U{2163} \U{2165}"[1..] == "\U{2163} \U{2165}";
    SpacedGlyphsFailuresFrom2();
  }

  lemma SpacedGlyphsFailures()
    ensures Failures("\U{2162} \U{2163} \U{2165}", 0) == [Failure(3, ' '), Failure(7, ' ')]
  {
    assert "\U{2162} \U{2163} \U{2165}"[1..] == " \U{2163} \U{2165}";
    SpacedGlyphsFailuresFrom1();
  }

  /** 1 + 1 + 1 - 1 + 5 + 5 + 1 */
  lemma SpacedGlyphsSum()
    ensures IsRomanLetters("IIIIVVI") && LookaheadSum("IIIIVVI", 7) == 13
  {
    var e := "IIIIVVI";
    assert LookaheadSum(e, 3) == 3;
    assert LookaheadSum(e, 5) == 7;
  }

  lemma SpacedGlyphsConverted()
    ensures Arabic("\U{2162} \U{2163} \U{2165}") == ("13", Render([Failure(3, ' '), Failure(7, ' ')]))
  {
    SpacedGlyphsLetters();
    SpacedGlyphsFailures();
    SpacedGlyphsSum();
    assert NatToDecimal(13) == "13";
    WithFailures("\U{2162} \U{2163} \U{2165}", "IIIIVVI", [Failure(3, ' '), Failure(7, ' ')], 13);
  }

  /** Each glyph is three bytes long, so the spaces are reported at bytes 3 and 7. */
  lemma VectorSpacedGlyphs()
    ensures Arabic("\U{2162} \U{2163} \U{2165}") ==
      ("13", Some("unexpected symbol ' ' at position 3" + ", " + "unexpected symbol ' ' at position 7"))
  {
    SpacedGlyphsConverted();
    RenderTwo(Failure(3, ' '), Failure(7, ' '));
    MessageSpace3();
    MessageSpace7();
  }

  lemma SpacesAroundLettersFrom3()
    ensures Letters(" ") == ""
  {
  }

  lemma SpacesAroundLettersFrom2()
    ensures Letters("I ") == "I"
  {
    assert "I "[1..] == " ";
    SpacesAroundLettersFrom3();
  }

  lemma SpacesAroundLettersFrom1()
    ensures Letters("II ") == "II"
  {
    assert "II "[1..] == "I ";
    SpacesAroundLettersFrom2();
  }

  lemma SpacesAroundLetters()
    ensures Letters(" II ") == "II"
  {
    assert " II "[1..] == "II ";
    SpacesAroundLettersFrom1();
  }

  lemma SpacesAroundFailuresFrom3()
    ensures Failures(" ", 3) == [Failure(3, ' ')]
  {
  }

  lemma SpacesAroundFailuresFrom2()
    ensures Failures("I ", 2) == [Failure(3, ' ')]
  {
    assert "I "[1..] == " ";
    SpacesAroundFailuresFrom3();
  }

  lemma SpacesAroundFailuresFrom1()
    ensures Failures("II ", 1) == [Failure(3, ' ')]
  {
    assert "II "[1..] == "I ";
    SpacesAroundFailuresFrom2();
  }

  lemma SpacesAroundFailures()
    ensures Failures(" II ", 0) == [Failure(0, ' '), Failure(3, ' ')]
  {
    assert " II "[1..] == "II ";
    SpacesAroundFailuresFrom1();
  }

  lemma SpacesAroundConverted()
    ensures Arabic(" II ") == ("2", Render([Failure(0, ' '), Failure(3, ' ')]))
  {
    SpacesAroundLetters();
    SpacesAroundFailures();
    assert NatToDecimal(2) == "2";
    WithFailures(" II ", "II", [Failure(0, ' '), Failure(3, ' ')], 2);
  }

  lemma VectorSpacesAround()
    ensures Arabic(" II ") ==
      ("2", Some("unexpected symbol ' ' at position 0" + ", " + "unexpected symbol ' ' at position 3"))
  {
    SpacesAroundConverted();
    RenderTwo(Failure(0, ' '), Failure(3, ' '));
    MessageSpace0();
    MessageSpace3();
  }

  lemma SpaceBetweenLettersFrom2()
    ensures Letters("I") == "I"
  {
  }

  lemma SpaceBetweenLettersFrom1()
    ensures Letters(" I") == "I"
  {
    assert " I"[1..] == "I";
    SpaceBetweenLettersFrom2();
  }

  lemma SpaceBetweenLetters()
    ensures Letters("I I") == "II"
  {
    assert "I I"[1..] == " I";
    SpaceBetweenLettersFrom1();
  }

  lemma SpaceBetweenFailuresFrom2()
    ensures Failures("I", 2) == []
  {
  }

  lemma SpaceBetweenFailuresFrom1()
    ensures Failures(" I", 1) == [Failure(1, ' ')]
  {
    assert " I"[1..] == "I";
    SpaceBetweenFailuresFrom2();
  }

  lemma SpaceBetweenFailures()
    ensures Failures("I I", 0) == [Failure(1, ' ')]
  {
    assert "I I"[1..] == " I";
    SpaceBetweenFailuresFrom1();
  }

  lemma SpaceBetweenConverted()
    ensures Arabic("I I") == ("2", Render([Failure(1, ' ')]))
  {
    SpaceBetweenLetters();
    SpaceBetweenFailures();
    assert NatToDecimal(2) == "2";
    WithFailures("I I", "II", [Failure(1, ' ')], 2);
  }

  lemma VectorSpaceBetween()
    ensures Arabic("I I") == ("2", Some("unexpected symbol ' ' at position 1"))
  {
    SpaceBetweenConverted();
    RenderOne(Failure(1, ' '));
    MessageSpace1();
  }

  lemma PlusLettersFrom2()
    ensures Letters("V") == "V"
  {
  }

  lemma PlusLettersFrom1()
    ensures Letters("+V") == "V"
  {
    assert "+V"[1..] == "V";
    PlusLettersFrom2();
  }

  lemma PlusLetters()
    ensures Letters("V+V") == "VV"
  {
    assert "V+V"[1..] == "+V";
    PlusLettersFrom1();
  }

  lemma PlusFailuresFrom2()
    ensures Failures("V", 2) == []
  {
  }

  lemma PlusFailuresFrom1()
    ensures Failures("+V", 1) == [Failure(1, '+')]
  {
    assert "+V"[1..] == "V";
    PlusFailuresFrom2();
  }

  lemma PlusFailures()
    ensures Failures("V+V", 0) == [Failure(1, '+')]
  {
    assert "V+V"[1..] == "+V";
    PlusFailuresFrom1();
  }

  lemma VectorPlus()
    ensures Arabic("V+V") == ("10", Some("unexpected symbol '+' at position 1"))
  {
    PlusLetters();
    PlusFailures();
    RenderOne(Failure(1, '+'));
    MessagePlus1();
    assert NatToDecimal(10) == "10";
    WithFailures("V+V", "VV", [Failure(1, '+')], 10);
  }

  lemma HelloLettersFrom4()
    ensures Letters("O") == ""
  {
  }

  lemma HelloLettersFrom3()
    ensures Letters("LO") == "L"
  {
    assert "LO"[1..] == "O";
    HelloLettersFrom4();
  }

  lemma HelloLettersFrom2()
    ensures Letters("LLO") == "LL"
  {
    assert "LLO"[1..] == "LO";
    HelloLettersFrom3();
  }

  lemma HelloLettersFrom1()
    ensures Letters("ELLO") == "LL"
  {
    assert "ELLO"[1..] == "LLO";
    HelloLettersFrom2();
  }

  lemma HelloLetters()
    ensures Letters("HELLO") == "LL"
  {
    assert "HELLO"[1..] == "ELLO";
    HelloLettersFrom1();
  }

  lemma HelloFailuresFrom4()
    ensures Failures("O", 4) == [Failure(4, 'O')]
  {
  }

  lemma HelloFailuresFrom3()
    ensures Failures("LO", 3) == [Failure(4, 'O')]
  {
    assert "LO"[1..] == "O";
    HelloFailuresFrom4();
  }

  lemma HelloFailuresFrom2()
    ensures Failures("LLO", 2) == [Failure(4, 'O')]
  {
    assert "LLO"[1..] == "LO";
    HelloFailuresFrom3();
  }

  lemma HelloFailuresFrom1()
    ensures Failures("ELLO", 1) == [Failure(1, 'E'), Failure(4, 'O')]
  {
    assert "ELLO"[1..] == "LLO";
    HelloFailuresFrom2();
  }

  lemma HelloFailures()
    ensures Failures("HELLO", 0) == [Failure(0, 'H'), Failure(1, 'E'), Failure(4, 'O')]
  {
    assert "HELLO"[1..] == "ELLO";
    HelloFailuresFrom1();
  }

  /** 'L' is recognised twice and gives 50 + 50. */
  lemma HelloConverted()
    ensures Arabic("HELLO") == ("100", Render([Failure(0, 'H'), Failure(1, 'E'), Failure(4, 'O')]))
  {
    HelloLetters();
    HelloFailures();
    assert LookaheadSum("LL", 2) == 100;
    assert NatToDecimal(100) == "100";
    WithFailures("HELLO", "LL", [Failure(0, 'H'), Failure(1, 'E'), Failure(4, 'O')], 100);
  }

  /** H, E and O are reported at bytes 0, 1 and 4, in the words roman_test.go:77-78 expects. */
  lemma VectorHello()
    ensures Arabic("HELLO") == ("100", Some(
      "unexpected symbol 'H' at position 0" + ", " +
      "unexpected symbol 'E' at position 1" + ", " +
      "unexpected symbol 'O' at position 4"))
  {
    HelloConverted();
    RenderThree(Failure(0, 'H'), Failure(1, 'E'), Failure(4, 'O'));
    MessageH0();
    MessageE1();
    MessageO4();
  }
}
