/**
 * The value resolution of `ToArabic` in roman.go: one forward pass over the
 * canonical letters in which a letter is subtracted when the letter after it
 * is strictly larger and added otherwise.
 */
module Resolver {
  import opened Wrappers
  import opened Tables

  /** Go's `romanToInt[c]` used as a value: the zero value 0 for a missing key. */
  function LookupOrZero(c: char): (v: int)
    ensures c in RomanToInt ==> v == RomanToInt[c] && v > 0
    ensures c !in RomanToInt ==> v == 0
  {
    LetterValuesPositive();
    if c in RomanToInt then RomanToInt[c] else 0
  }

  /**
   * The result of the loop of `ToArabic` over `letters`: the sum on success,
   * or the first letter that has no value (the internal-error return).
   */
  function Resolve(letters: seq<char>): Result<int, char> {
    if letters == [] then Ok(0)
    else if letters[0] !in RomanToInt then Err(letters[0])
    else
      var current := RomanToInt[letters[0]];
      var next := if 1 < |letters| then LookupOrZero(letters[1]) else 0;
      var step := if next != 0 && current < next then -current else current;
      match Resolve(letters[1..])
      case Ok(rest) => Ok(step + rest)
      case Err(c) => Err(c)
  }

  /**
   * The loop of `ToArabic`: for each letter, look at the one after it (0 at
   * the end or for a letter without a value), subtract the letter when that
   * one is strictly larger and add it otherwise; stop at a letter that has
   * no value.
   */
  method ResolveLetters(letters: seq<char>) returns (r: Result<int, char>)
    ensures r == Resolve(letters)
  {
    var result := 0;
    var i := 0;
    while i < |letters|
      invariant 0 <= i <= |letters|
      invariant Resolve(letters) == Shift(Resolve(letters[i..]), result)
    {
      ResolveStep(letters, i);
      if letters[i] !in RomanToInt {
        return Err(letters[i]);
      }
      var current := RomanToInt[letters[i]];
      var next := 0;
      if i + 1 < |letters| {
        next := LookupOrZero(letters[i + 1]);
      }
      if next != 0 && current < next {
        result := result - current;
      } else {
        result := result + current;
      }
      i := i + 1;
    }
    assert letters[i..] == [];
    return Ok(result);
  }

  /** One step of the loop of ResolveLetters, stated on the suffix still to be summed. */
  lemma ResolveStep(letters: seq<char>, i: nat)
    requires i < |letters|
    ensures letters[i] !in RomanToInt ==> Resolve(letters[i..]) == Err(letters[i])
    ensures letters[i] in RomanToInt ==>
      var current := RomanToInt[letters[i]];
      var next := if i + 1 < |letters| then LookupOrZero(letters[i + 1]) else 0;
      Resolve(letters[i..]) ==
        Shift(Resolve(letters[i + 1..]), if next != 0 && current < next then -current else current)
  {
    assert letters[i..][1..] == letters[i + 1..];
  }

  /** `r` with `d` added to its value: how far the loop has got into the sum. */
  function Shift(r: Result<int, char>, d: int): (s: Result<int, char>)
    ensures s.Ok? <==> r.Ok?
    ensures r.Ok? ==> s.value == r.value + d
    ensures r.Err? ==> s == r
  {
    match r
    case Ok(n) => Ok(n + d)
    case Err(c) => r
  }


  /** Resolution fails exactly when a letter has no value, and then names such a letter. */
  lemma {:induction false} ResolveFailsOnlyOnUnknownLetters(letters: seq<char>)
    ensures Resolve(letters).Ok? <==> IsRomanLetters(letters)
    ensures Resolve(letters).Err? ==>
      Resolve(letters).error in letters && Resolve(letters).error !in RomanToInt
  {
    if letters != [] {
      ResolveFailsOnlyOnUnknownLetters(letters[1..]);
      assert forall k :: 1 <= k < |letters| ==> letters[k] == letters[1..][k - 1];
    }
  }

  /** The lookahead rule for letter `i`: minus its value when the next letter is larger, plus otherwise. */
  function Term(letters: seq<char>, i: nat): int
    requires IsRomanLetters(letters) && i < |letters|
  {
    var v := RomanToInt[letters[i]];
    if i + 1 < |letters| && v < RomanToInt[letters[i + 1]] then -v else v
  }

  /** The sum of the terms of the first `n` letters. */
  function LookaheadSum(letters: seq<char>, n: nat): int
    requires IsRomanLetters(letters) && n <= |letters|
  {
    if n == 0 then 0 else LookaheadSum(letters, n - 1) + Term(letters, n - 1)
  }

  lemma {:induction false} LookaheadSumTail(letters: seq<char>, n: nat)
    requires IsRomanLetters(letters) && 1 <= n <= |letters|
    ensures IsRomanLetters(letters[1..])
    ensures LookaheadSum(letters, n) == Term(letters, 0) + LookaheadSum(letters[1..], n - 1)
  {
    assert forall k :: 0 <= k < |letters| - 1 ==> letters[1..][k] == letters[k + 1];
    if n > 1 {
      LookaheadSumTail(letters, n - 1);
      assert Term(letters, n - 1) == Term(letters[1..], n - 2);
    }
  }

  /**
   * For canonical letters the pass never fails and computes exactly the
   * lookahead rule: letter i is subtracted iff i + 1 < |letters| and its
   * value is below that of letter i + 1 (so the last letter is always added
   * and the empty sequence sums to 0).
   */
  lemma {:induction false} LookaheadRule(letters: seq<char>)
    requires IsRomanLetters(letters)
    ensures Resolve(letters) == Ok(LookaheadSum(letters, |letters|))
  {
    if letters != [] {
      LetterValuesPositive();
      LookaheadSumTail(letters, |letters|);
      LookaheadRule(letters[1..]);
      var current := RomanToInt[letters[0]];
      var next := if 1 < |letters| then LookupOrZero(letters[1]) else 0;
      assert Term(letters, 0) == if next != 0 && current < next then -current else current;
    }
  }

  /** The sum of the letter values, every letter added. */
  function PlainSum(letters: seq<char>): int
    requires IsRomanLetters(letters)
  {
    if letters == [] then 0 else RomanToInt[letters[0]] + PlainSum(letters[1..])
  }

  /** Letter values never increase from left to right. */
  predicate NonIncreasing(letters: seq<char>)
    requires IsRomanLetters(letters)
  {
    forall i :: 0 <= i < |letters| - 1 ==> RomanToInt[letters[i]] >= RomanToInt[letters[i + 1]]
  }

  /** Additive notation: with non-increasing letters the result is the plain sum of the values. */
  lemma {:induction false} AdditiveNotation(letters: seq<char>)
    requires IsRomanLetters(letters) && NonIncreasing(letters)
    ensures Resolve(letters) == Ok(PlainSum(letters))
  {
    if letters != [] {
      assert forall k :: 0 <= k < |letters| - 1 ==> letters[1..][k] == letters[k + 1];
      AdditiveNotation(letters[1..]);
    }
  }

  /** The sum of all distinct letter values strictly below `v`. */
  function SumBelow(v: int): int {
    if v <= 1 then 0
    else if v <= 5 then 1
    else if v <= 10 then 1 + 5
    else if v <= 50 then 1 + 5 + 10
    else if v <= 100 then 1 + 5 + 10 + 50
    else if v <= 500 then 1 + 5 + 10 + 50 + 100
    else if v <= 1000 then 1 + 5 + 10 + 50 + 100 + 500
    else 1 + 5 + 10 + 50 + 100 + 500 + 1000
  }

  /**
   * The numeral system's key fact: each value exceeds the sum of all smaller
   * values, and a larger value is at least a smaller one plus everything
   * below the smaller one.
   */
  lemma ValuesDominate(c: char, d: char)
    requires c in RomanToInt && d in RomanToInt
    ensures SumBelow(RomanToInt[c]) < RomanToInt[c]
    ensures RomanToInt[c] < RomanToInt[d] ==> SumBelow(RomanToInt[c]) + RomanToInt[c] <= SumBelow(RomanToInt[d])
  {
    assert c in "IVXLCDM" && d in "IVXLCDM";
  }

  /**
   * A non-empty sequence of canonical letters resolves to more than the sum
   * of all values below its first letter: a strictly increasing run gives
   * back more than it subtracted.
   */
  lemma {:induction false} ResolveExceedsSumBelow(letters: seq<char>)
    requires IsRomanLetters(letters) && letters != []
    ensures Resolve(letters).Ok?
    ensures Resolve(letters).value > SumBelow(RomanToInt[letters[0]])
  {
    ValuesDominate(letters[0], letters[0]);
    if |letters| > 1 {
      var rest := letters[1..];
      assert rest[0] == letters[1];
      ResolveExceedsSumBelow(rest);
      ValuesDominate(letters[0], letters[1]);
      ValuesDominate(letters[1], letters[1]);
      LetterValuesPositive();
    }
  }

  /** The result is never negative, and is at least 1 for a non-empty sequence. */
  lemma ResolvePositive(letters: seq<char>)
    requires IsRomanLetters(letters)
    ensures Resolve(letters).Ok? && Resolve(letters).value >= 0
    ensures letters != [] ==> Resolve(letters).value >= 1
  {
    if letters != [] {
      ResolveExceedsSumBelow(letters);
    }
  }
}
