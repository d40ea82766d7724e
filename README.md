# Roman numerals to Arabic, modelled in Dafny

This project models `roman.go`, a small Go package. Its one exported
function, `ToArabic`, converts a Roman numeral to the decimal string of its
value and returns a Go `error` beside it. The package has three parts:

- **Two constant tables.** `romanToInt` gives the value of each of the seven
  canonical letters I V X L C D M. `unicodeToASCIIRomanMapping` gives the
  canonical letters that each accepted input rune stands for. The accepted
  runes are the upper-case letters, their lower-case forms, and the sixteen
  glyphs U+2160..U+216F of the Unicode Number Forms block.
- **The normaliser `transformInput`.** It walks the input rune by rune and
  appends the expansion of every accepted rune. For every other rune it
  records an error, "unexpected symbol 'c' at position n", where n is the
  rune's byte offset in UTF-8. `mergeErrors` joins the errors with ", ".
- **`ToArabic` itself.** The exact input "nulla" is zero. Any other input is
  normalised and then summed in one forward pass: a letter is subtracted
  when the next letter is strictly larger, and added otherwise. The sum is
  returned as a decimal string, together with the normaliser's error,
  unchanged.

The modules are:

- `Tables` (tables.dfy): both tables as Dafny `map` constants.
- `Normalizer` (normalizer.dfy):
  - `transformInput` as the method `TransformInput`, with a loop. It is
    proved against two specification functions: `Letters` for the
    canonical letters and `Failures` for the unrecognised runes and their
    byte offsets.
  - `Render`, which turns the failure records into Go's error value.
  - `mergeErrors` as the function `MergeErrors`.
  - `UnquoteRune` and `DecodeUnexpectedSymbol`, readers that invert the
    quoting of a rune and the message for a rejected rune. They are not
    part of roman.go; they show that a message loses none of what it reports.
- `Resolver` (resolver.dfy):
  - The summing loop of `ToArabic` as the method `ResolveLetters`, proved
    against the function `Resolve`.
  - An independent, index-based statement of the lookahead rule,
    `LookaheadSum`, proved equal to `Resolve`.
- `Roman` (roman.dfy): `ToArabic` as a method, and `Arabic` as the
  function it is proved to compute. Also the properties of the whole
  conversion.
- `Decimal` (decimal.dfy): `strconv.Itoa`, as far as `ToArabic` needs it.
- `Vectors` (vectors.dfy): every vector of roman_test.go, stated on
  `Arabic`.
- `Wrappers` (wrappers.dfy): `Option` and `Result`.

A Go `error` is an `Option<string>`: `None` is nil, and `Some(m)` is an
error whose `Error()` is `m`. A Go string is the sequence of Unicode scalar
values that `for pos, r := range s` visits. The byte offset `pos` is
computed from the UTF-8 widths of the runes before it.

The loop of `ToArabic` (roman.go:74-89) is the separate method
`Resolver.ResolveLetters`, which `Roman.ToArabic` calls. The loop itself
is unchanged: same variables, same branches, and the same early return of
an internal error through `Result.Err`.

Where roman_test.go and roman.go disagree, the model follows roman.go.
The empty input is the only such case. The test at roman_test.go:54 expects
`("", error)`. The code returns `("0", nil)`, because the check at
roman.go:71-73 is commented out. `Vectors.EmptyInput` and
`Roman.ZeroWithoutError` state what the code does.

For the vectors with unrecognised runes, roman_test.go checks only that an
error is present. The `Vectors` lemmas state the whole message. The message
for "HELLO" is written as the three per-rune messages joined by ", ", which
is the same string as the literal at roman_test.go:77-78.

## Model

| member | source | states |
|---|---|---|
| Tables.LetterValuesPositive | roman.go:8-16 | every canonical letter has a positive value |
| Tables.ExpansionsAreRomanLetters | roman.go:18-52 | every accepted rune expands to a non-empty string of canonical letters |
| Tables.UpperCaseAccepted | roman.go:19-25 | each canonical letter is accepted and stands for itself |
| Tables.LowerCaseAccepted | roman.go:26-32 | the lower-case form of each canonical letter is accepted and stands for the upper-case letter |
| Tables.AcceptedRunes | roman.go:18-52 | a rune is accepted iff it is a canonical letter, the lower-case form of one, or in U+2160..U+216F |
| Decimal.NatToDecimal | roman.go:90 | `strconv.Itoa` of a non-negative value is a non-empty digit string with no leading zero |
| Decimal.IntToDecimal | roman.go:90 | `strconv.Itoa` gives digits, preceded by '-' for a negative value |
| Decimal.NatToDecimalRoundTrip | roman.go:90 | reading the digits back gives the value |
| Decimal.IntToDecimalRoundTrip | roman.go:90 | parsing the decimal string of any int gives that int back |
| Decimal.IntToDecimalInjective | roman.go:90 | distinct values give distinct decimal strings |
| Normalizer.Utf8Width | roman.go:98 | the byte width of a rune is 1 to 4, and 1 exactly for ASCII |
| Normalizer.ByteLengthBounds | roman.go:98 | an input of n runes occupies n to 4n bytes, exactly n iff it is ASCII |
| Normalizer.ByteLengthConcat | roman.go:98 | byte offsets add up across a concatenation |
| Normalizer.Expand | roman.go:100-105 | an accepted rune contributes its table entry, which is non-empty and canonical; any other rune contributes nothing |
| Normalizer.QuoteRune | roman.go:102 | the quoted rune is bracketed by single quotes, and a printable ASCII rune other than a quote or a backslash is written as itself |
| Normalizer.QuoteRuneRoundTrip | roman.go:102 | quoting loses nothing: `UnquoteRune` reads every quoted rune back |
| Normalizer.UnexpectedSymbol | roman.go:102 | the message for one rejected rune begins with the words "unexpected symbol " |
| Normalizer.UnexpectedSymbolRoundTrip | roman.go:102 | the message names its failure: the rune and the byte offset both read back from it through `DecodeUnexpectedSymbol` |
| Normalizer.JoinStartsWithFirst | roman.go:117 | a chained message starts with the message of the oldest rejected rune |
| Normalizer.RenderPrefix | roman.go:102 | every error the normaliser returns begins with the words "unexpected symbol " |
| Normalizer.Render | roman.go:97-103 | the error is nil iff no rune was rejected |
| Normalizer.MergeErrors | roman.go:110-118 | the merged error is nil iff both errors are nil |
| Normalizer.MergeErrorsMonoid | roman.go:110-118 | nil is a left and a right identity of `mergeErrors`, and merging is associative |
| Normalizer.TransformInput | roman.go:95-108 | the loop returns exactly `Letters(input)` and the rendered error of `Failures(input, 0)` |
| Normalizer.ByteLengthSnoc | roman.go:98 | one more rune moves `pos` on by its UTF-8 width |
| Normalizer.LettersSnoc | roman.go:100-105 | one more rune appends its expansion to the output |
| Normalizer.FailuresSnoc | roman.go:100-103 | one more rune adds a record at the current byte offset iff it is not accepted |
| Normalizer.RenderSnoc | roman.go:101-102 | recording one more failure is `mergeErrors` of the error so far and that failure's message |
| Normalizer.MergeRender | roman.go:110-118 | merging the errors of two lists of failures is the error of the concatenated list |
| Normalizer.LettersConcat | roman.go:98-107 | the letters of a + b are the letters of a followed by the letters of b |
| Normalizer.FailuresConcat | roman.go:98-104 | the failures of a + b are those of a, followed by those of b at offsets shifted by the byte length of a |
| Normalizer.LettersAreRoman | roman.go:98-107 | the normaliser emits canonical letters only (table closure) |
| Normalizer.LettersOfCanonical | roman.go:98-107 | canonical letters pass through the normaliser unchanged |
| Normalizer.LettersNonEmpty | roman.go:100-105 | an input that starts with an accepted rune gives at least one letter |
| Normalizer.NoFailuresIff | roman.go:97-103 | no rune is reported iff every rune is in the expansion table |
| Normalizer.FailuresFrom | roman.go:98-102 | every record lies at or after the byte the input starts at |
| Normalizer.FailuresOrdered | roman.go:98-102 | the records are in strictly increasing byte order, i.e. in encounter order |
| Normalizer.FailuresSound | roman.go:98-102 | each record names an unrecognised rune of the input and that rune's byte offset |
| Normalizer.FailuresComplete | roman.go:98-102 | each unrecognised rune of the input has its record, with its byte offset |
| Normalizer.FailureAt | roman.go:98-102 | the record of the unrecognised rune at index i comes right after the records of the runes before it |
| Normalizer.Recognized | roman.go:100-105 | only accepted runes remain, and each accepted rune occurs as often as in the input (multiset equality on the accepted runes) |
| Normalizer.RecognizedConcat | roman.go:100-105 | filtering commutes with concatenation, so the accepted runes keep their input order |
| Normalizer.RecognizedSingle | roman.go:100-105 | a single rune is kept iff the expansion table accepts it |
| Normalizer.LettersOfRecognized | roman.go:100-105 | unrecognised runes contribute nothing: dropping them leaves the letters unchanged |
| Resolver.LookupOrZero | roman.go:82 | a missing key reads as Go's zero value 0; a present key reads as its positive value |
| Resolver.ResolveLetters | roman.go:74-89 | the summing loop returns `Resolve(letters)`: the sum, or the first letter without a value |
| Resolver.ResolveStep | roman.go:75-88 | one step of the loop: fail on a letter without a value, otherwise add or subtract it by the lookahead test |
| Resolver.ResolveFailsOnlyOnUnknownLetters | roman.go:76-79 | resolution succeeds iff every letter has a value, and a failure names a letter without one |
| Resolver.LookaheadRule | roman.go:80-88 | for canonical letters the pass computes the lookahead sum: letter i is subtracted iff i + 1 < len and its value is below that of letter i + 1, so the last letter is always added and the empty sequence sums to 0 |
| Resolver.AdditiveNotation | roman.go:80-88 | with non-increasing letter values the result is the plain sum of the values |
| Resolver.ValuesDominate | roman.go:8-16 | each value exceeds the sum of all smaller values, and a larger value is at least a smaller one plus everything below that one |
| Resolver.ResolveExceedsSumBelow | roman.go:74-89 | canonical letters resolve to more than the sum of all values below the first letter |
| Resolver.ResolvePositive | roman.go:74-89 | the result is never negative, and is at least 1 for a non-empty sequence |
| Roman.InternalError | roman.go:78 | the internal error names the offending rune, readable back through `UnquoteRune`, and is never equal to any error the normaliser can return |
| Roman.ToArabic | roman.go:63-91 | `ToArabic` returns `Arabic(roman)` |
| Roman.ArabicResult | roman.go:68-90 | apart from "nulla", the internal error is unreachable: the value is the non-negative lookahead sum of the normalised letters, and the error is the normaliser's, unchanged |
| Roman.NullaIsZero | roman.go:65-67 | "nulla" gives "0" and nil |
| Roman.NullaWithoutLiteralCheck | roman.go:65-67 | without the literal check, "nulla" would read as L L = 100, with errors for n, u and a at bytes 0, 1 and 4 |
| Roman.ErrorIffUnrecognized | roman.go:70-90 | apart from "nulla", the error is nil iff every rune is accepted |
| Roman.CanonicalInputHasNoError | roman.go:70-90 | an input of canonical letters converts without error |
| Roman.BestGuessIgnoresUnrecognized | roman.go:55-56 | the value for any input equals the value, reached without error, for the input with its unrecognised runes removed |
| Roman.ZeroWithoutError | roman.go:63-91 | ("0", nil) comes back for exactly "nulla" and the empty string |
| Roman.NumberFormsOneToThree | roman.go:35-37 | Ⅰ, Ⅱ, Ⅲ stand for 1, 2, 3 |
| Roman.NumberFormsFourToSix | roman.go:38-40 | Ⅳ, Ⅴ, Ⅵ stand for 4, 5, 6 |
| Roman.NumberFormsSevenToNine | roman.go:41-43 | Ⅶ, Ⅷ, Ⅸ stand for 7, 8, 9 |
| Roman.NumberFormsTenToTwelve | roman.go:44-46 | Ⅹ, Ⅺ, Ⅻ stand for 10, 11, 12 |
| Roman.NumberFormsLetters | roman.go:47-50 | Ⅼ, Ⅽ, Ⅾ, Ⅿ stand for 50, 100, 500, 1000 |
| Vectors.VectorI | roman_test.go:13 | "I" gives ("1", nil) |
| Vectors.VectorV | roman_test.go:14 | "V" gives ("5", nil) |
| Vectors.VectorX | roman_test.go:15 | "X" gives ("10", nil) |
| Vectors.VectorL | roman_test.go:16 | "L" gives ("50", nil) |
| Vectors.VectorC | roman_test.go:17 | "C" gives ("100", nil) |
| Vectors.VectorD | roman_test.go:18 | "D" gives ("500", nil) |
| Vectors.VectorM | roman_test.go:19 | "M" gives ("1000", nil) |
| Vectors.VectorIII | roman_test.go:21 | "III" gives ("3", nil) |
| Vectors.VectorIIIIIIIIII | roman_test.go:22 | "IIIIIIIIII" gives ("10", nil) |
| Vectors.VectorXXX | roman_test.go:23 | "XXX" gives ("30", nil) |
| Vectors.VectorMDCLXVI | roman_test.go:24 | "MDCLXVI" gives ("1666", nil) |
| Vectors.VectorIV | roman_test.go:26 | "IV" gives ("4", nil) |
| Vectors.VectorIX | roman_test.go:27 | "IX" gives ("9", nil) |
| Vectors.VectorXL | roman_test.go:28 | "XL" gives ("40", nil) |
| Vectors.VectorXC | roman_test.go:29 | "XC" gives ("90", nil) |
| Vectors.VectorCD | roman_test.go:30 | "CD" gives ("400", nil) |
| Vectors.VectorCM | roman_test.go:31 | "CM" gives ("900", nil) |
| Vectors.VectorIIX | roman_test.go:33 | "IIX" gives ("10", nil) |
| Vectors.VectorIIXLL | roman_test.go:34 | "IIXLL" gives ("90", nil) |
| Vectors.VectorCDXCIX | roman_test.go:36 | "CDXCIX" gives ("499", nil) |
| Vectors.VectorLDVLIV | roman_test.go:37 | "LDVLIV" gives ("499", nil) |
| Vectors.VectorXDIX | roman_test.go:38 | "XDIX" gives ("499", nil) |
| Vectors.VectorVDIV | roman_test.go:39 | "VDIV" gives ("499", nil) |
| Vectors.VectorID | roman_test.go:40 | "ID" gives ("499", nil) |
| Vectors.VectorCDXCV | roman_test.go:41 | "CDXCV" gives ("495", nil) |
| Vectors.VectorLDVL | roman_test.go:42 | "LDVL" gives ("495", nil) |
| Vectors.VectorXDV | roman_test.go:43 | "XDV" gives ("495", nil) |
| Vectors.VectorVD | roman_test.go:44 | "VD" gives ("495", nil) |
| Vectors.VectorSixGlyph | roman_test.go:46 | "Ⅵ" gives ("6", nil) |
| Vectors.VectorFiveOneGlyphs | roman_test.go:47-48 | "ⅤⅠ" gives ("6", nil) |
| Vectors.VectorSpacedGlyphs | roman_test.go:49-50 | "Ⅲ Ⅳ Ⅵ" gives "13", with errors for the spaces at bytes 3 and 7 |
| Vectors.VectorSpacesAround | roman_test.go:52 | " II " gives "2", with errors for the spaces at bytes 0 and 3 |
| Vectors.VectorSpaceBetween | roman_test.go:53 | "I I" gives "2", with an error for the space at byte 1 |
| Vectors.VectorPlus | roman_test.go:55 | "V+V" gives "10", with an error for '+' at byte 1 |
| Vectors.VectorHello | roman_test.go:75-83 | "HELLO" gives "100" and exactly the message "unexpected symbol 'H' at position 0, unexpected symbol 'E' at position 1, unexpected symbol 'O' at position 4" |
| Vectors.EmptyInput | roman.go:68-90 | the empty input gives ("0", nil), as the code does |

## Left out

- Invalid UTF-8 is not modelled. Go's `range` decodes each invalid byte as U+FFFD with width 1; here the input is always a sequence of Unicode scalar values.
- Normalizer.QuoteRune: models the escapes of `strconv.QuoteRune` for ASCII only (the quote, the backslash, `\a \b \f \n \r \t \v`, and `\xHH` for the other control characters and DEL). A rune outside ASCII is written as itself, without Go's `\u`/`\U` escapes for non-printable runes, because the Unicode printability tables are not modelled.
- The formatting of `fmt.Errorf` is modelled only for the two messages roman.go builds: the failure message and the internal-error message.
- `strconv.Itoa` becomes `Decimal.IntToDecimal`.
- Go's 64-bit `int` is unbounded here: overflow of `result`, or of `pos`, on inputs of billions of runes is not modelled.
- The commented-out empty-input error at roman.go:71-73 is dead code and is not modelled.
- The TODOs at roman.go:51 and 61-62 (more glyphs, fractions, strict validation) are not implemented in the source and are not modelled.
- The vector at roman_test.go:54 (`""` expected to give `""` and an error) contradicts the code and is replaced by `Vectors.EmptyInput`, which states what the code returns.
- The `testing` harness of roman_test.go (`t.Run`, `t.Errorf`) is left out; its vectors are the `Vectors` lemmas.
- The sum of all letter values below a value (`Resolver.SumBelow`, used only in the positivity proof) is written out for the seven values of `romanToInt` rather than computed from the map.
