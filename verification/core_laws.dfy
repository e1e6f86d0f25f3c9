/** Laws of the combinator algebra: how bind and its derived forms treat
    failures and successes, the monad laws, the reference definitions of the
    sequencing combinators in terms of bind, and the behaviour the test
    harness pins down for each of them. */
module CoreLaws {
  import opened Results
  import opened Core

  // ===== Bind =====

  /** A failure of `p` is the failure of `then(p, f)`; a success of `p`
      hands its value and its rest to `f`. */
  lemma ThenRuns<A, B>(p: Parser<A>, f: A -> Parser<B>, s: string)
    ensures p(s).Failure? ==> Then(p, f)(s) == Failure(p(s).message)
    ensures p(s).Success? ==> Then(p, f)(s) == f(p(s).val)(p(s).rest)
  {
  }

  lemma LeftIdentity<A, B>(a: A, f: A -> Parser<B>, s: string)
    ensures Then(Succeed(a), f)(s) == f(a)(s)
  {
  }

  lemma RightIdentity<A>(p: Parser<A>, s: string)
    ensures Then(p, Succeed)(s) == p(s)
  {
  }

  lemma Associativity<A, B, C>(p: Parser<A>, f: A -> Parser<B>, g: B -> Parser<C>, s: string)
    ensures Then(Then(p, f), g)(s) == Then(p, a => Then(f(a), g))(s)
  {
  }

  /** `fail(m)` absorbs any continuation. */
  lemma FailAbsorbs<A, B>(m: Error, f: A -> Parser<B>, s: string)
    ensures Then(Fail(m), f)(s) == Failure(m)
  {
  }

  // ===== Derived combinators against bind =====

  lemma SecondIsThen<A, B>(p: Parser<A>, q: Parser<B>, s: string)
    ensures Second(p, q)(s) == Then(p, _ => q)(s)
  {
  }

  lemma FirstIsThen<A, B>(p: Parser<A>, q: Parser<B>, s: string)
    ensures First(p, q)(s) == Then(p, a => Map(q, _ => a))(s)
  {
  }

  lemma MapIsThen<A, B>(p: Parser<A>, f: A -> B, s: string)
    ensures Map(p, f)(s) == Then(p, a => Succeed(f(a)))(s)
  {
  }

  lemma PairIsThen<A, B>(p: Parser<A>, q: Parser<B>, s: string)
    ensures Pair(p, q)(s) == Then(p, a => Map(q, b => (a, b)))(s)
  {
  }

  // ===== Failure propagation and rest threading =====

  /** `map` keeps the rest and applies `f`; a failure passes unchanged. */
  lemma MapRuns<A, B>(p: Parser<A>, f: A -> B, s: string)
    ensures p(s).Success? ==> Map(p, f)(s) == Success(f(p(s).val), p(s).rest)
    ensures p(s).Failure? ==> Map(p, f)(s) == Failure(p(s).message)
  {
  }

  lemma MapFunctor<A, B, C>(p: Parser<A>, f: A -> B, g: B -> C, s: string)
    ensures Map(p, x => x)(s) == p(s)
    ensures Map(Map(p, f), g)(s) == Map(p, x => g(f(x)))(s)
  {
  }

  /** `first` and `second` fail with whichever parser failed first, and
      otherwise keep one value and the rest left by `q`. */
  lemma FirstSecondRun<A, B>(p: Parser<A>, q: Parser<B>, s: string)
    ensures p(s).Failure? ==>
      First(p, q)(s) == Failure(p(s).message) && Second(p, q)(s) == Failure(p(s).message)
    ensures p(s).Success? && q(p(s).rest).Failure? ==>
      First(p, q)(s) == Failure(q(p(s).rest).message) && Second(p, q)(s) == q(p(s).rest)
    ensures p(s).Success? && q(p(s).rest).Success? ==>
      First(p, q)(s) == Success(p(s).val, q(p(s).rest).rest) && Second(p, q)(s) == q(p(s).rest)
  {
  }

  /** The corrected `pair`: `p`'s failure unchanged, then `q`'s failure,
      else both values in order with `q`'s rest. */
  lemma PairRuns<A, B>(p: Parser<A>, q: Parser<B>, s: string)
    ensures p(s).Failure? ==> Pair(p, q)(s) == Failure(p(s).message)
    ensures p(s).Success? && q(p(s).rest).Failure? ==> Pair(p, q)(s) == Failure(q(p(s).rest).message)
    ensures p(s).Success? && q(p(s).rest).Success? ==>
      Pair(p, q)(s) == Success((p(s).val, q(p(s).rest).val), q(p(s).rest).rest)
  {
  }

  /** As written, `pair` agrees with the corrected one except when `q` fails. */
  lemma PairAsWrittenAgrees<A, B>(p: Parser<A>, q: Parser<B>, s: string)
    ensures p(s).Failure? ==> PairAsWritten(p, q)(s) == LooseFailure(p(s).message)
    ensures p(s).Success? && q(p(s).rest).Success? ==>
      PairAsWritten(p, q)(s) == LooseSuccess((p(s).val, Some(q(p(s).rest).val)), Some(q(p(s).rest).rest))
  {
  }

  /** The input the harness expects `pair(digit, digit)` to reject is
      accepted by the code as written, with an absent second value and an
      absent rest; the corrected `pair` rejects it. */
  lemma PairAcceptsHalfParse()
    ensures PairAsWritten(Digit, Digit)("1foo") == LooseSuccess((1, None), None)
    ensures Pair(Digit, Digit)("1foo").Failure?
  {
    assert Digit("1foo") == Success(1, "foo");
    assert Digit("foo").Failure?;
  }

  // ===== Fluent aliases =====

  /** The methods of the parser class are exactly the free combinators. */
  lemma FluentAliases<A, B>(p: Parser<A>, q: Parser<B>, f: A -> FluentParser<B>, g: A -> B, s: string)
    ensures Fluent(p).Bind(f).consume(s) == Then(p, a => f(a).consume)(s)
    ensures Fluent(p).SkipLeft(Fluent(q)).consume(s) == Second(p, q)(s)
    ensures Fluent(p).SkipRight(Fluent(q)).consume(s) == First(p, q)(s)
    ensures Fluent(p).Fmap(g).consume(s) == Map(p, g)(s)
  {
  }

  // ===== Behaviour fixed by the test harness =====

  lemma DigitExamples()
    ensures Digit("123 hi") == Success(1, "23 hi")
    ensures Digit("23 hi") == Success(2, "3 hi")
    ensures Digit("hi").Failure? && Digit("").Failure?
  {
    assert "123 hi"[1..] == "23 hi";
    assert "23 hi"[1..] == "3 hi";
  }

  lemma SequencingExamples()
    ensures First(Digit, Digit)("12999 hi") == Success(1, "999 hi")
    ensures Second(Digit, Digit)("12999 hi") == Success(2, "999 hi")
    ensures First(Digit, Digit)("a2999 hi").Failure?
    ensures Second(Digit, Digit)("a2999 hi").Failure?
    ensures Second(Digit, Digit)("1a999 hi").Failure?
    ensures Map(Digit, (x: nat) => x * x)("5foo") == Success(25, "foo")
    ensures Map(Digit, (x: nat) => x * x)("foo").Failure?
    ensures Then(Digit, (n: nat) => Map(Digit, (m: nat) => n + m))("12hi") == Success(3, "hi")
    ensures Succeed(123)("hi") == Success(123, "hi")
  {
    assert Digit("12999 hi") == Success(1, "2999 hi");
    assert Digit("2999 hi") == Success(2, "999 hi");
    assert Digit("5foo") == Success(5, "foo");
    assert Digit("12hi") == Success(1, "2hi");
    assert Digit("2hi") == Success(2, "hi");
    assert Digit("a2999 hi").Failure?;
    assert Digit("1a999 hi") == Success(1, "a999 hi");
    assert Digit("a999 hi").Failure?;
  }

  /** The harness's expected results for the corrected `pair`. */
  lemma PairExamples()
    ensures Pair(Digit, Digit)("12foo") == Success((1, 2), "foo")
    ensures Pair(Digit, Digit)("1foo").Failure?
    ensures Pair(Digit, Digit)("x2foo").Failure?
  {
    assert Digit("12foo") == Success(1, "2foo");
    assert Digit("2foo") == Success(2, "foo");
    assert Digit("1foo") == Success(1, "foo");
    assert Digit("foo").Failure?;
    assert Digit("x2foo").Failure?;
  }
}
