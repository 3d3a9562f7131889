/** The short-code generator of Services/UrlShortenerService.cs. */
module ShortCodes {

  /** The 62-symbol alphabet, the source's literal in its three runs: the
      digits, then the upper-case letters, then the lower-case letters. */
  const Digits: string := "0123456789"
  const UpperLetters: string := "ABCDEFGHIJKLMNOPQRSTUVWXYZ"
  const LowerLetters: string := "abcdefghijklmnopqrstuvwxyz"
  const Base62Chars: string := Digits + UpperLetters + LowerLetters

  /** Every generated code has exactly this many characters. */
  const ShortCodeLength: nat := 6

  /** Width of the ShortCode column (`[StringLength(10)]` on the entity). */
  const MaxShortCodeLength: nat := 10

  /** Independent description of the alphabet: ASCII digits and letters. */
  predicate IsBase62Char(c: char) {
    ('0' <= c <= '9') || ('A' <= c <= 'Z') || ('a' <= c <= 'z')
  }

  /** A string the generator can produce. */
  predicate IsShortCode(s: string) {
    |s| == ShortCodeLength && forall i | 0 <= i < |s| :: s[i] in Base62Chars
  }

  /** A valid sequence of outcomes of `Random.Next(62)`, one per position. */
  predicate ValidDraws(draws: seq<nat>) {
    |draws| == ShortCodeLength && forall i | 0 <= i < |draws| :: draws[i] < |Base62Chars|
  }

  /** The character the alphabet holds at index `i`, computed from ASCII ranges. */
  function ExpectedChar(i: nat): (c: char)
    requires i < 62
    ensures IsBase62Char(c)
  {
    if i < 10 then ('0' as int + i) as char
    else if i < 36 then ('A' as int + (i - 10)) as char
    else ('a' as int + (i - 36)) as char
  }

  /** The alphabet literal lists 0-9, then A-Z, then a-z, without gaps. */
  lemma AlphabetLayout()
    ensures |Base62Chars| == 62
    ensures forall i | 0 <= i < 62 :: Base62Chars[i] == ExpectedChar(i)
  {
    assert forall i | 0 <= i < 10 :: Digits[i] == ExpectedChar(i);
    assert forall i | 0 <= i < 26 :: UpperLetters[i] == ExpectedChar(i + 10);
    assert forall i | 0 <= i < 26 :: LowerLetters[i] == ExpectedChar(i + 36);
  }

  /** Position of an alphanumeric character in the alphabet. */
  function AlphabetIndex(c: char): (i: nat)
    requires IsBase62Char(c)
    ensures i < 62 && ExpectedChar(i) == c
  {
    if '0' <= c <= '9' then c as int - '0' as int
    else if 'A' <= c <= 'Z' then c as int - 'A' as int + 10
    else c as int - 'a' as int + 36
  }

  /** The alphabet is exactly the ASCII digits and letters. */
  lemma AlphabetIsAlphanumeric(c: char)
    ensures c in Base62Chars <==> IsBase62Char(c)
  {
    AlphabetLayout();
    if IsBase62Char(c) {
      var i := AlphabetIndex(c);
      assert Base62Chars[i] == c;
    }
  }

  /** Each position takes `Base62Chars[Random.Next(62)]`; the random
      outcomes are the `draws` parameter. */
  method GenerateShortCode(draws: seq<nat>) returns (code: string)
    requires ValidDraws(draws)
    ensures IsShortCode(code)
    ensures forall i | 0 <= i < ShortCodeLength :: code[i] == Base62Chars[draws[i]]
  {
    code := [];
    var i := 0;
    while i < ShortCodeLength
      invariant 0 <= i <= ShortCodeLength
      invariant |code| == i
      invariant forall k | 0 <= k < i :: code[k] == Base62Chars[draws[k]]
    {
      code := code + [Base62Chars[draws[i]]];
      i := i + 1;
    }
  }

  /** Every code the generator produces fits the ShortCode column. */
  lemma ShortCodeFitsColumn(s: string)
    requires IsShortCode(s)
    ensures 0 < |s| <= MaxShortCodeLength
  {
  }
}
