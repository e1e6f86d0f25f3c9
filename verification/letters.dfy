/** The `cCharacter` primitive: a parser for the single letter `c`. */
module Letters {
  import opened Results
  import opened Combinators
  import opened Core
  import opened CombinatorLaws

  function CCharacter(s: string): (r: Result<string>)
    ensures r.Success? <==> 0 < |s| && s[0] == 'c'
    ensures r.Success? ==> r.val == "c" && r.rest == s[1..]
  {
    if |s| == 0 then
      Failure(Message("Expected a 'c' character instead of empty string"))
    else if s[0] == 'c' then
      Success("c", s[1..])
    else
      Failure(Message("Expected a 'c' character instead of '" + [s[0]] + "'"))
  }

  /** `cCharacter` accepts what `char('c')` accepts and leaves the same
      rest; it yields the letter as a one-character string. */
  lemma CCharacterIsChar(s: string)
    ensures CCharacter(s).Success? <==> Char('c')(s).Success?
    ensures CCharacter(s).Success? ==>
      CCharacter(s).rest == Char('c')(s).rest && CCharacter(s).val == [Char('c')(s).val]
  {
  }

  lemma CCharacterExamples()
    ensures CCharacter("c123") == Success("c", "123")
    ensures CCharacter("123").Failure?
    ensures CCharacter("").Failure?
  {
    assert "c123"[1..] == "123";
  }

  /** What `or(digit, cCharacter)` and `any([digit, cCharacter])` yield: the
      untyped source returns either a number or a string. */
  datatype Token = Number(n: nat) | Letter(c: string)

  function DigitToken(s: string): (r: Result<Token>)
    ensures r.Success? <==> Digit(s).Success?
    ensures r.Success? ==> r == Success(Number(Digit(s).val), Digit(s).rest)
  {
    Map(Digit, (n: nat) => Number(n))(s)
  }

  function LetterToken(s: string): (r: Result<Token>)
    ensures r.Success? <==> CCharacter(s).Success?
    ensures r.Success? ==> r == Success(Letter("c"), s[1..])
  {
    Map(CCharacter, (c: string) => Letter(c))(s)
  }

  /** The harness's expected results for `or` over a digit and the letter
      `c`. */
  lemma MixedOrExamples()
    ensures Or(DigitToken, LetterToken)("cxxx") == Success(Letter("c"), "xxx")
    ensures Or(DigitToken, LetterToken)("xxxx").Failure?
    ensures Or(DigitToken, LetterToken)("").Failure?
  {
    assert "cxxx"[1..] == "xxx";
    assert Digit("cxxx").Failure?;
    assert Digit("xxxx").Failure?;
  }

  /** The harness's expected results for `any` over a digit and the letter
      `c`: the same as `or` of the two. */
  lemma MixedAnyExamples()
    ensures Any([DigitToken, LetterToken])("xxxx").Failure?
    ensures Any([DigitToken, LetterToken])("cxxx") == Success(Letter("c"), "xxx")
  {
    MixedOrExamples();
    AnyOfTwoIsOr(DigitToken, LetterToken, "xxxx");
    AnyOfTwoIsOr(DigitToken, LetterToken, "cxxx");
  }
}
