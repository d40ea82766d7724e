/**
 * The normaliser `transformInput` of roman.go and the error plumbing
 * (`mergeErrors` and the per-rune messages) it uses.
 *
 * A Go string is modelled as the sequence of Unicode scalar values that
 * `for pos, letter := range input` visits; `pos` is the byte offset of each
 * rune in the UTF-8 encoding, computed here from the UTF-8 width of the
 * runes before it. A Go `error` is an Option<string>: None is nil and
 * Some(m) is an error whose message is m.
 */
module Normalizer {
  import opened Wrappers
  import opened Tables
  import opened Decimal

  /** Number of bytes UTF-8 uses for the scalar value `c`. */
  function Utf8Width(c: char): (w: nat)
    ensures 1 <= w <= 4
    ensures w == 1 <==> c as int < 0x80
  {
    if c as int < 0x80 then 1
    else if c as int < 0x800 then 2
    else if c as int < 0x10000 then 3
    else 4
  }

  /** Length in bytes of the UTF-8 encoding of `s`. */
  function ByteLength(s: seq<char>): nat {
    if s == [] then 0 else Utf8Width(s[0]) + ByteLength(s[1..])
  }

  /** What one rune contributes to the output: its table entry, or nothing when it has none. */
  function Expand(c: char): (r: string)
    ensures c in UnicodeToAsciiRoman ==> r == UnicodeToAsciiRoman[c] && r != [] && IsRomanLetters(r)
    ensures c !in UnicodeToAsciiRoman ==> r == []
  {
    ExpansionsAreRomanLetters();
    if c in UnicodeToAsciiRoman then UnicodeToAsciiRoman[c] else []
  }

  /** The canonical letters `transformInput` returns for `s`. */
  function Letters(s: seq<char>): seq<char> {
    if s == [] then [] else Expand(s[0]) + Letters(s[1..])
  }

  /** One unrecognised rune: its byte offset in the input and the rune itself. */
  datatype Failure = Failure(pos: nat, symbol: char)

  /** The unrecognised runes of `s`, in input order, for a string that starts at byte `base`. */
  function Failures(s: seq<char>, base: nat): seq<Failure> {
    if s == [] then []
    else
      (if s[0] in UnicodeToAsciiRoman then [] else [Failure(base, s[0])]) +
      Failures(s[1..], base + Utf8Width(s[0]))
  }

  /** Lower-case hexadecimal digit, as in Go's `lowerhex`. */
  function HexDigit(d: nat): (c: char)
    requires d < 16
    ensures IsHexDigit(c) && HexValue(c) == d
  {
    if d < 10 then ('0' as int + d) as char else ('a' as int + d - 10) as char
  }

  predicate IsHexDigit(c: char) {
    '0' <= c <= '9' || 'a' <= c <= 'f'
  }

  /** The value of a lower-case hexadecimal digit. */
  function HexValue(c: char): (d: nat)
    requires IsHexDigit(c)
    ensures d < 16
  {
    if c <= '9' then c as int - '0' as int else c as int - 'a' as int + 10
  }

  /**
   * `strconv.QuoteRune` for the runes that can reach it: the rune between
   * single quotes, with a backslash before a quote or a backslash, and Go's
   * escapes for the ASCII control characters. Runes outside ASCII are
   * written as they are.
   */
  function QuoteRune(c: char): (q: string)
    ensures |q| >= 3 && q[0] == '\'' && q[|q| - 1] == '\''
    ensures ' ' <= c <= '~' && c != '\'' && c != '\\' ==> q == ['\'', c, '\'']
  {
    var body :=
      if c == '\'' || c == '\\' then ['\\', c]
      else if c == '\U{7}' then "\\a"
      else if c == '\U{8}' then "\\b"
      else if c == '\U{C}' then "\\f"
      else if c == '\n' then "\\n"
      else if c == '\r' then "\\r"
      else if c == '\t' then "\\t"
      else if c == '\U{B}' then "\\v"
      else if c < ' ' || c == '\U{7F}' then ['\\', 'x', HexDigit(c as int / 16), HexDigit(c as int % 16)]
      else [c];
    ['\''] + body + ['\'']
  }

  /** The rune a one-character escape such as `\n` stands for. */
  function EscapedRune(e: char): Option<char> {
    if e == 'a' then Some('\U{7}')
    else if e == 'b' then Some('\U{8}')
    else if e == 'f' then Some('\U{C}')
    else if e == 'n' then Some('\n')
    else if e == 'r' then Some('\r')
    else if e == 't' then Some('\t')
    else if e == 'v' then Some('\U{B}')
    else if e == '\'' || e == '\\' then Some(e)
    else None
  }

  /** Reads back a rune quoted by QuoteRune; None for any other text. */
  function UnquoteRune(q: string): Option<char> {
    if |q| == 3 && q[0] == '\'' && q[2] == '\'' then Some(q[1])
    else if |q| == 4 && q[0] == '\'' && q[1] == '\\' && q[3] == '\'' then EscapedRune(q[2])
    else if |q| == 6 && q[0] == '\'' && q[1] == '\\' && q[2] == 'x' && q[5] == '\''
      && IsHexDigit(q[3]) && IsHexDigit(q[4])
    then Some((HexValue(q[3]) * 16 + HexValue(q[4])) as char)
    else None
  }

  /** Quoting loses nothing: the rune can be read back from its quoted form. */
  lemma QuoteRuneRoundTrip(c: char)
    ensures UnquoteRune(QuoteRune(c)) == Some(c)
  {
    if c != '\'' && c != '\\' && c !in "\U{7}\U{8}\U{C}\n\r\t\U{B}" && (c < ' ' || c == '\U{7F}') {
      var h, l := c as int / 16, c as int % 16;
      assert QuoteRune(c) == ['\'', '\\', 'x', HexDigit(h), HexDigit(l), '\''];
      assert h * 16 + l == c as int;
    }
  }

  const SymbolPrefix := "unexpected symbol "
  const PositionInfix := " at position "

  /** The message of the error recorded for one unrecognised rune. */
  function UnexpectedSymbol(f: Failure): (m: string)
    ensures |SymbolPrefix| < |m| && m[..|SymbolPrefix|] == SymbolPrefix
  {
    var m := SymbolPrefix + QuoteRune(f.symbol) + PositionInfix + NatToDecimal(f.pos);
    assert m[..|SymbolPrefix|] == SymbolPrefix;
    m
  }

  /** Number of digits at the end of `s`. */
  function TrailingDigits(s: string): (k: nat)
    ensures k <= |s| && AllDigits(s[|s| - k..])
    decreases |s|
  {
    if s == [] || !IsDigit(s[|s| - 1]) then 0
    else
      var k := TrailingDigits(s[..|s| - 1]);
      assert s[|s| - (k + 1)..] == s[..|s| - 1][|s| - 1 - k..] + [s[|s| - 1]];
      k + 1
  }

  /**
   * Reads the rune and the position back out of a message written by
   * UnexpectedSymbol: the position is the run of digits at the end, and the
   * quoted rune what lies between the prefix and " at position ".
   */
  function DecodeUnexpectedSymbol(m: string): Option<Failure> {
    if |m| < |SymbolPrefix| || m[..|SymbolPrefix|] != SymbolPrefix then None
    else
      var rest := m[|SymbolPrefix|..];
      var k := TrailingDigits(rest);
      var front, digits := rest[..|rest| - k], rest[|rest| - k..];
      if k == 0 || |front| < |PositionInfix| || front[|front| - |PositionInfix|..] != PositionInfix then None
      else
        match UnquoteRune(front[..|front| - |PositionInfix|])
        case None => None
        case Some(c) => Some(Failure(DigitsValue(digits), c))
  }

  /** Digits appended after a non-digit are exactly the trailing digits. */
  lemma {:induction false} TrailingDigitsAfter(x: string, d: string)
    requires x != [] && !IsDigit(x[|x| - 1]) && AllDigits(d)
    ensures TrailingDigits(x + d) == |d|
    decreases |d|
  {
    if d == [] {
      assert x + d == x;
    } else {
      assert (x + d)[..|x + d| - 1] == x + d[..|d| - 1];
      TrailingDigitsAfter(x, d[..|d| - 1]);
    }
  }

  /** The message names its failure: the rune and the position can be read back from it. */
  lemma UnexpectedSymbolRoundTrip(f: Failure)
    ensures DecodeUnexpectedSymbol(UnexpectedSymbol(f)) == Some(f)
  {
    QuoteRuneRoundTrip(f.symbol);
    NatToDecimalRoundTrip(f.pos);
    DecodeParts(QuoteRune(f.symbol), NatToDecimal(f.pos), f);
  }

  /** A message assembled from a readable quoted rune and a non-empty run of digits decodes to them. */
  lemma DecodeParts(q: string, d: string, f: Failure)
    requires q != [] && q[|q| - 1] == '\'' && UnquoteRune(q) == Some(f.symbol)
    requires d != [] && AllDigits(d) && DigitsValue(d) == f.pos
    ensures DecodeUnexpectedSymbol(SymbolPrefix + q + PositionInfix + d) == Some(f)
  {
    var rest := SplitPrefix(q, d);
    SplitDigits(q + PositionInfix, d);
    SplitInfix(q);
  }

  /** What follows the prefix of a message. */
  lemma SplitPrefix(q: string, d: string) returns (rest: string)
    ensures var m := SymbolPrefix + q + PositionInfix + d;
      |SymbolPrefix| <= |m| && m[..|SymbolPrefix|] == SymbolPrefix && m[|SymbolPrefix|..] == rest
    ensures rest == (q + PositionInfix) + d
  {
    rest := (q + PositionInfix) + d;
    var m := SymbolPrefix + q + PositionInfix + d;
    assert m == SymbolPrefix + rest;
  }

  /** The trailing digits of a message are its position. */
  lemma SplitDigits(x: string, d: string)
    requires x != [] && !IsDigit(x[|x| - 1]) && AllDigits(d)
    ensures TrailingDigits(x + d) == |d|
    ensures (x + d)[..|x + d| - |d|] == x && (x + d)[|x + d| - |d|..] == d
  {
    TrailingDigitsAfter(x, d);
  }

  /** The quoted rune is what precedes " at position ". */
  lemma SplitInfix(q: string)
    ensures var x := q + PositionInfix;
      |PositionInfix| <= |x| && x[|x| - |PositionInfix|..] == PositionInfix && x[..|x| - |PositionInfix|] == q
  {
  }

  /** The messages of `fs` joined by ", ", oldest first. */
  function Join(fs: seq<Failure>): string
    requires fs != []
    decreases |fs|
  {
    if |fs| == 1 then UnexpectedSymbol(fs[0])
    else Join(fs[..|fs| - 1]) + ", " + UnexpectedSymbol(fs[|fs| - 1])
  }

  /** The joined message starts with the message of the oldest failure. */
  lemma {:induction false} JoinStartsWithFirst(fs: seq<Failure>)
    requires fs != []
    ensures |UnexpectedSymbol(fs[0])| <= |Join(fs)|
    ensures Join(fs)[..|UnexpectedSymbol(fs[0])|] == UnexpectedSymbol(fs[0])
    decreases |fs|
  {
    if |fs| > 1 {
      var init := fs[..|fs| - 1];
      JoinStartsWithFirst(init);
      assert init[0] == fs[0];
    }
  }

  /** Every message of a non-nil normaliser error starts with the words "unexpected symbol ". */
  lemma RenderPrefix(fs: seq<Failure>)
    requires fs != []
    ensures Render(fs).value[..|SymbolPrefix|] == SymbolPrefix
  {
    JoinStartsWithFirst(fs);
  }

  /** The error that reports the failures `fs`: nil when there are none. */
  function Render(fs: seq<Failure>): (e: Option<string>)
    ensures e == None <==> fs == []
  {
    if fs == [] then None else Some(Join(fs))
  }

  /** `mergeErrors`: nil is neutral on either side; two errors become one whose message is "e1, e2". */
  function MergeErrors(e1: Option<string>, e2: Option<string>): (r: Option<string>)
    ensures r == None <==> e1 == None && e2 == None
  {
    if e1 == None then e2
    else if e2 == None then e1
    else Some(e1.value + ", " + e2.value)
  }

  /**
   * `transformInput`: walks the input rune by rune, appends the expansion of
   * every recognised rune and records an error for every other one.
   */
  method TransformInput(input: string) returns (letters: seq<char>, err: Option<string>)
    ensures letters == Letters(input)
    ensures err == Render(Failures(input, 0))
  {
    var output := "";
    err := None;
    var i, pos := 0, 0;
    while i < |input|
      invariant 0 <= i <= |input|
      invariant pos == ByteLength(input[..i])
      invariant output == Letters(input[..i])
      invariant err == Render(Failures(input[..i], 0))
    {
      var letter := input[i];
      assert input[..i + 1] == input[..i] + [letter];
      ByteLengthSnoc(input[..i], letter);
      LettersSnoc(input[..i], letter);
      FailuresSnoc(input[..i], letter);
      if letter !in UnicodeToAsciiRoman {
        RenderSnoc(Failures(input[..i], 0), Failure(pos, letter));
        err := MergeErrors(err, Some(UnexpectedSymbol(Failure(pos, letter))));
      } else {
        output := output + UnicodeToAsciiRoman[letter];
      }
      pos := pos + Utf8Width(letter);
      i := i + 1;
    }
    assert input[..i] == input;
    letters := output;
  }

  /** Appending one rune adds its UTF-8 width to the byte length. */
  lemma ByteLengthSnoc(prefix: seq<char>, letter: char)
    ensures ByteLength(prefix + [letter]) == ByteLength(prefix) + Utf8Width(letter)
  {
    ByteLengthConcat(prefix, [letter]);
    assert [letter][1..] == [];
  }

  /** Appending one rune appends its expansion to the letters. */
  lemma LettersSnoc(prefix: seq<char>, letter: char)
    ensures Letters(prefix + [letter]) == Letters(prefix) + Expand(letter)
  {
    LettersConcat(prefix, [letter]);
    assert [letter][1..] == [];
  }

  /** Appending one rune appends a record for it, at the current byte offset, when it is not accepted. */
  lemma FailuresSnoc(prefix: seq<char>, letter: char)
    ensures letter in UnicodeToAsciiRoman ==> Failures(prefix + [letter], 0) == Failures(prefix, 0)
    ensures letter !in UnicodeToAsciiRoman ==>
      Failures(prefix + [letter], 0) == Failures(prefix, 0) + [Failure(ByteLength(prefix), letter)]
  {
    FailuresConcat(prefix, [letter], 0);
    assert [letter][1..] == [];
    assert Failures(prefix, 0) + [] == Failures(prefix, 0);
  }

  /** The first rune of a non-empty input is recorded at the offset the input starts at, when it is not accepted. */
  lemma FailuresCons(s: seq<char>, base: nat)
    requires s != []
    ensures s[0] in UnicodeToAsciiRoman ==> Failures(s, base) == Failures(s[1..], base + Utf8Width(s[0]))
    ensures s[0] !in UnicodeToAsciiRoman ==>
      Failures(s, base) == [Failure(base, s[0])] + Failures(s[1..], base + Utf8Width(s[0]))
  {
    assert [] + Failures(s[1..], base + Utf8Width(s[0])) == Failures(s[1..], base + Utf8Width(s[0]));
  }

  lemma {:induction false} ByteLengthConcat(a: seq<char>, b: seq<char>)
    ensures ByteLength(a + b) == ByteLength(a) + ByteLength(b)
  {
    if a != [] {
      assert (a + b)[1..] == a[1..] + b;
      ByteLengthConcat(a[1..], b);
    } else {
      assert a + b == b;
    }
  }

  /** Every rune takes one to four bytes; exactly one each when the string is ASCII. */
  lemma {:induction false} ByteLengthBounds(s: seq<char>)
    ensures |s| <= ByteLength(s) <= 4 * |s|
    ensures ByteLength(s) == |s| <==> forall k :: 0 <= k < |s| ==> s[k] as int < 0x80
  {
    if s != [] {
      ByteLengthBounds(s[1..]);
      assert forall k :: 1 <= k < |s| ==> s[k] == s[1..][k - 1];
    }
  }

  /** The letters of a concatenation are the letters of its parts, in order. */
  lemma {:induction false} LettersConcat(a: seq<char>, b: seq<char>)
    ensures Letters(a + b) == Letters(a) + Letters(b)
  {
    if a != [] {
      assert (a + b)[1..] == a[1..] + b;
      LettersConcat(a[1..], b);
    } else {
      assert a + b == b;
    }
  }

  /** The normaliser emits canonical letters only. */
  lemma {:induction false} LettersAreRoman(s: seq<char>)
    ensures IsRomanLetters(Letters(s))
  {
    if s != [] {
      LettersAreRoman(s[1..]);
    }
  }

  /** Canonical letters pass through the normaliser unchanged. */
  lemma {:induction false} LettersOfCanonical(s: seq<char>)
    requires IsRomanLetters(s)
    ensures Letters(s) == s
  {
    if s != [] {
      UpperCaseAccepted(s[0]);
      assert forall k :: 0 <= k < |s| - 1 ==> s[1..][k] == s[k + 1];
      LettersOfCanonical(s[1..]);
    }
  }

  /** A recognised first rune contributes at least one letter. */
  lemma LettersNonEmpty(s: seq<char>)
    requires s != [] && s[0] in UnicodeToAsciiRoman
    ensures Letters(s) != []
  {
  }

  lemma {:induction false} FailuresConcat(a: seq<char>, b: seq<char>, base: nat)
    ensures Failures(a + b, base) == Failures(a, base) + Failures(b, base + ByteLength(a))
  {
    if a != [] {
      assert (a + b)[1..] == a[1..] + b;
      FailuresConcat(a[1..], b, base + Utf8Width(a[0]));
    } else {
      assert a + b == b;
    }
  }

  /** Reporting one more failure is merging its message into the error so far. */
  lemma RenderSnoc(fs: seq<Failure>, f: Failure)
    ensures Render(fs + [f]) == MergeErrors(Render(fs), Some(UnexpectedSymbol(f)))
  {
    if fs != [] {
      assert (fs + [f])[..|fs|] == fs;
    }
  }

  /** Merging the errors for two runs of failures gives the error for all of them. */
  lemma {:induction false} MergeRender(a: seq<Failure>, b: seq<Failure>)
    ensures MergeErrors(Render(a), Render(b)) == Render(a + b)
    decreases |b|
  {
    if b != [] {
      var b', f := b[..|b| - 1], b[|b| - 1];
      assert b == b' + [f];
      assert a + b == (a + b') + [f];
      MergeRender(a, b');
      RenderSnoc(a + b', f);
      RenderSnoc(b', f);
      MergeErrorsMonoid(Render(a), Render(b'), Some(UnexpectedSymbol(f)));
    } else {
      assert a + b == a;
    }
  }

  /** nil is both a left and a right identity of mergeErrors, and merging is associative. */
  lemma MergeErrorsMonoid(a: Option<string>, b: Option<string>, c: Option<string>)
    ensures MergeErrors(None, a) == a && MergeErrors(a, None) == a
    ensures MergeErrors(MergeErrors(a, b), c) == MergeErrors(a, MergeErrors(b, c))
  {
    if a.Some? && b.Some? && c.Some? {
      var x, y, z := a.value, b.value, c.value;
      assert (x + ", " + y) + ", " + z == x + ", " + (y + ", " + z);
    }
  }

  /** No failure is recorded exactly when every rune of the input is in the expansion table. */
  lemma {:induction false} NoFailuresIff(s: seq<char>, base: nat)
    ensures Failures(s, base) == [] <==> forall k :: 0 <= k < |s| ==> s[k] in UnicodeToAsciiRoman
  {
    if s != [] {
      NoFailuresIff(s[1..], base + Utf8Width(s[0]));
      assert forall k :: 1 <= k < |s| ==> s[k] == s[1..][k - 1];
    }
  }

  lemma {:induction false} PrefixByteLength(s: seq<char>, i: nat)
    requires 1 <= i <= |s|
    ensures ByteLength(s[..i]) == Utf8Width(s[0]) + ByteLength(s[1..][..i - 1])
  {
    assert s[..i][1..] == s[1..][..i - 1];
  }

  /** Every record of Failures(s, base) lies at byte `base` or later. */
  lemma {:induction false} FailuresFrom(s: seq<char>, base: nat)
    ensures forall j :: 0 <= j < |Failures(s, base)| ==> base <= Failures(s, base)[j].pos
    decreases |s|
  {
    if s != [] {
      FailuresFrom(s[1..], base + Utf8Width(s[0]));
    }
  }

  /** The records are in strictly increasing position order: encounter order, no rune twice. */
  lemma {:induction false} FailuresOrdered(s: seq<char>, base: nat)
    ensures forall j, j' :: 0 <= j < j' < |Failures(s, base)| ==>
      Failures(s, base)[j].pos < Failures(s, base)[j'].pos
    decreases |s|
  {
    if s != [] {
      FailuresOrdered(s[1..], base + Utf8Width(s[0]));
      FailuresFrom(s[1..], base + Utf8Width(s[0]));
    }
  }

  /** `f` is the record for an unrecognised rune of `s`, a string starting at byte `base`. */
  predicate IsRecordOf(s: seq<char>, base: nat, f: Failure) {
    exists i :: 0 <= i < |s| && s[i] !in UnicodeToAsciiRoman && f == Failure(base + ByteLength(s[..i]), s[i])
  }

  /** Each record names an unrecognised rune of `s` and that rune's byte offset. */
  lemma {:induction false} FailuresSound(s: seq<char>, base: nat)
    ensures forall j :: 0 <= j < |Failures(s, base)| ==> IsRecordOf(s, base, Failures(s, base)[j])
    decreases |s|
  {
    if s != [] {
      var c, t, w := s[0], s[1..], Utf8Width(s[0]);
      var head: seq<Failure> := if c in UnicodeToAsciiRoman then [] else [Failure(base, c)];
      var tail := Failures(t, base + w);
      var fs := Failures(s, base);
      assert fs == head + tail;
      FailuresSound(t, base + w);
      forall j | 0 <= j < |fs|
        ensures IsRecordOf(s, base, fs[j])
      {
        if j < |head| {
          assert s[..0] == [];
          assert fs[j] == Failure(base + ByteLength(s[..0]), s[0]);
        } else {
          assert IsRecordOf(t, base + w, tail[j - |head|]);
          var i' :| 0 <= i' < |t| && t[i'] !in UnicodeToAsciiRoman &&
            tail[j - |head|] == Failure(base + w + ByteLength(t[..i']), t[i']);
          PrefixByteLength(s, i' + 1);
          assert s[i' + 1] == t[i'];
          assert fs[j] == Failure(base + ByteLength(s[..i' + 1]), s[i' + 1]);
        }
      }
    }
  }

  /** Each unrecognised rune of `s` has its record, carrying its byte offset. */
  lemma FailuresComplete(s: seq<char>, base: nat)
    ensures forall i :: 0 <= i < |s| && s[i] !in UnicodeToAsciiRoman ==>
      Failure(base + ByteLength(s[..i]), s[i]) in Failures(s, base)
  {
    forall i | 0 <= i < |s| && s[i] !in UnicodeToAsciiRoman
      ensures Failure(base + ByteLength(s[..i]), s[i]) in Failures(s, base)
    {
      FailureAt(s, base, i);
      var fs := Failures(s, base);
      assert fs[|Failures(s[..i], base)|] in fs;
    }
  }

  /** The record of the unrecognised rune at index `i` follows the records of the runes before it. */
  lemma FailureAt(s: seq<char>, base: nat, i: nat)
    requires i < |s| && s[i] !in UnicodeToAsciiRoman
    ensures |Failures(s[..i], base)| < |Failures(s, base)|
    ensures Failures(s, base)[|Failures(s[..i], base)|] == Failure(base + ByteLength(s[..i]), s[i])
  {
    var b := base + ByteLength(s[..i]);
    assert s == s[..i] + s[i..];
    FailuresConcat(s[..i], s[i..], base);
    assert s[i..][0] == s[i];
    FailuresCons(s[i..], b);
  }

  /** The runes of `s` that the expansion table accepts, in order. */
  function Recognized(s: seq<char>): (r: seq<char>)
    ensures forall k :: 0 <= k < |r| ==> r[k] in UnicodeToAsciiRoman
    ensures forall c :: multiset(r)[c] == if c in UnicodeToAsciiRoman then multiset(s)[c] else 0
  {
    if s == [] then []
    else
      assert s == [s[0]] + s[1..];
      (if s[0] in UnicodeToAsciiRoman then [s[0]] else []) + Recognized(s[1..])
  }

  /** Filtering commutes with concatenation, so the accepted runes keep their input order. */
  lemma {:induction false} RecognizedConcat(a: seq<char>, b: seq<char>)
    ensures Recognized(a + b) == Recognized(a) + Recognized(b)
    decreases |a|
  {
    if a == [] {
      assert a + b == b;
    } else {
      var head: seq<char> := if a[0] in UnicodeToAsciiRoman then [a[0]] else [];
      assert (a + b)[0] == a[0] && (a + b)[1..] == a[1..] + b;
      calc {
        Recognized(a + b);
        head + Recognized(a[1..] + b);
        { RecognizedConcat(a[1..], b); }
        head + (Recognized(a[1..]) + Recognized(b));
        (head + Recognized(a[1..])) + Recognized(b);
      }
    }
  }

  /** A single rune survives the filter exactly when the table accepts it. */
  lemma RecognizedSingle(c: char)
    ensures Recognized([c]) == if c in UnicodeToAsciiRoman then [c] else []
  {
    assert [c][1..] == [];
  }

  /** Unrecognised runes contribute nothing to the letters. */
  lemma {:induction false} LettersOfRecognized(s: seq<char>)
    ensures Letters(Recognized(s)) == Letters(s)
  {
    if s != [] {
      var head: seq<char> := if s[0] in UnicodeToAsciiRoman then [s[0]] else [];
      LettersConcat(head, Recognized(s[1..]));
      LettersOfRecognized(s[1..]);
      if head != [] {
        assert Letters(head) == Expand(s[0]) by { assert head[1..] == []; }
      }
    }
  }
}
