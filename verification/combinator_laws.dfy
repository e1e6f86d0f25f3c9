/** Laws of the choice, repetition, sequence and lookahead combinators, and
    the behaviour the test harness fixes for each of them. */
module CombinatorLaws {
  import opened Results
  import opened Core
  import opened Combinators
  import opened CoreLaws

  // ===== Ordered choice =====

  /** `or` keeps a success of `p`; a failure of `p` leaves no trace, `q`
      runs on the same input; a double failure reports both errors. */
  lemma OrRuns<A>(p: Parser<A>, q: Parser<A>, s: string)
    ensures p(s).Success? ==> Or(p, q)(s) == p(s)
    ensures p(s).Failure? && q(s).Success? ==> Or(p, q)(s) == q(s)
    ensures p(s).Failure? && q(s).Failure? ==>
      Or(p, q)(s) == Failure(Alternatives([p(s).message, q(s).message]))
  {
  }

  /** `any` of two alternatives is `or` of them. */
  lemma AnyOfTwoIsOr<A>(p: Parser<A>, q: Parser<A>, s: string)
    ensures Any([p, q])(s) == Or(p, q)(s)
  {
    var ps := [p, q];
    if p(s).Failure? {
      assert ps[1..] == [q];
      if q(s).Failure? {
        assert [q][1..] == [];
        assert AnyFrom([q][1..], s, [p(s).message, q(s).message]) == Failure(Alternatives([p(s).message, q(s).message]));
      }
    }
  }

  /** `any` of three alternatives takes the first success, and reports
      all three errors in order when none succeeds. */
  lemma AnyOfThree<A>(a: Parser<A>, b: Parser<A>, c: Parser<A>, s: string)
    ensures a(s).Success? ==> Any([a, b, c])(s) == a(s)
    ensures a(s).Failure? && b(s).Success? ==> Any([a, b, c])(s) == b(s)
    ensures a(s).Failure? && b(s).Failure? && c(s).Success? ==> Any([a, b, c])(s) == c(s)
    ensures a(s).Failure? && b(s).Failure? && c(s).Failure? ==>
      Any([a, b, c])(s) == Failure(Alternatives([a(s).message, b(s).message, c(s).message]))
  {
    var ps := [a, b, c];
    assert ps[1..] == [b, c];
    assert ps[1..][1..] == [c];
    assert ps[1..][1..][1..] == [];
    if a(s).Failure? && b(s).Failure? {
      assert Any(ps)(s) == AnyFrom([c], s, [a(s).message] + [b(s).message]);
    }
    if a(s).Failure? && b(s).Failure? && c(s).Failure? {
      assert [a(s).message] + [b(s).message] + [c(s).message] == [a(s).message, b(s).message, c(s).message];
    }
  }

  lemma AnyOfNoneFails<A>(s: string)
    ensures Any<A>([])(s) == Failure(Alternatives([]))
  {
  }

  // ===== Repetition =====

  function FoldLeft<S, A>(step: (S, A) -> S, acc: S, xs: seq<A>): S
  {
    if |xs| == 0 then acc else FoldLeft(step, step(acc, xs[0]), xs[1..])
  }

  /** `maximalReduce` folds exactly the values `maximalMunch` collects, and
      stops at the same place. */
  lemma {:induction false} ReduceIsFoldedMunch<S, A>(p: Parser<A>, acc: S, step: (S, A) -> S, s: string)
    requires StrictlyConsumes(p)
    ensures ReduceFrom(p, acc, step, s) == Success(FoldLeft(step, acc, MunchFrom(p, s).val), MunchFrom(p, s).rest)
    decreases |s|
  {
    var v := p(s);
    if v.Success? {
      ReduceIsFoldedMunch(p, step(acc, v.val), step, v.rest);
      var more := MunchFrom(p, v.rest);
      assert MunchFrom(p, s).val == [v.val] + more.val;
      assert ([v.val] + more.val)[1..] == more.val;
    }
  }

  /** `maximalMunchDiscard` consumes exactly what `maximalMunch` consumes. */
  lemma {:induction false} DiscardIsMunch<A>(p: Parser<A>, s: string)
    requires StrictlyConsumes(p)
    ensures SkipFrom(p, s) == Success((), MunchFrom(p, s).rest)
    decreases |s|
  {
    if p(s).Success? {
      DiscardIsMunch(p, p(s).rest);
    }
  }

  /** A repetition that stops at once consumes nothing. */
  lemma MunchStopsAtFailure<A>(p: Parser<A>, s: string)
    requires StrictlyConsumes(p) && p(s).Failure?
    ensures MaximalMunch(p)(s) == Success([], s)
    ensures MaximalMunchDiscard(p)(s) == Success((), s)
  {
  }

  // ===== Sequences =====

  lemma SequenceRuns<A>(ps: seq<Parser<A>>, s: string)
    ensures |ps| == 0 ==> Sequence(ps)(s) == Success([], s)
    ensures 0 < |ps| && ps[0](s).Failure? ==> Sequence(ps)(s) == Failure(ps[0](s).message)
    ensures 0 < |ps| && ps[0](s).Success? ==>
      Sequence(ps)(s) == Then(ps[0], a => Map(Sequence(ps[1..]), (xs: seq<A>) => [a] + xs))(s)
  {
  }

  // ===== Lookahead switch =====

  /** `cond` runs the selected branch on the input the probe was given. */
  lemma CondRuns<A, B>(p: Parser<A>, onSuccess: A -> Parser<B>, onFailure: Error -> Parser<B>, s: string)
    ensures p(s).Success? ==> Cond(p, onSuccess, onFailure)(s) == onSuccess(p(s).val)(s)
    ensures p(s).Failure? ==> Cond(p, onSuccess, onFailure)(s) == onFailure(p(s).message)(s)
  {
  }

  // ===== Behaviour fixed by the test harness =====

  function Sum(xs: seq<nat>): nat
  {
    if |xs| == 0 then 0 else xs[0] + Sum(xs[1..])
  }

  /** The number of copies of `c` at the front of `s`. */
  function LeadingCount(s: string, c: char): (k: nat)
    ensures k <= |s|
    ensures forall i | 0 <= i < k :: s[i] == c
    ensures k == |s| || s[k] != c
  {
    if 0 < |s| && s[0] == c then 1 + LeadingCount(s[1..], c) else 0
  }

  /** The counting step `(state, _) => state + 1`. */
  function CountOne<A>(k: nat, ignored: A): nat
  {
    k + 1
  }

  /** One step of `maximalReduce`: fold the value of a success and go on
      from its rest; stop with the accumulator at a failure. */
  lemma ReduceStep<S, A>(p: Parser<A>, acc: S, step: (S, A) -> S, s: string)
    requires StrictlyConsumes(p)
    ensures p(s).Success? ==>
      ReduceFrom(p, acc, step, s) == ReduceFrom(p, step(acc, p(s).val), step, p(s).rest)
    ensures p(s).Failure? ==> ReduceFrom(p, acc, step, s) == Success(acc, s)
  {
  }

  /** Counting the copies of `c` with `maximalReduce(char(c), k, ...)` adds
      their number to `k` and leaves the input after them. */
  lemma {:induction false} CountingReduce(c: char, k: nat, s: string)
    ensures ReduceFrom<nat, char>(Char(c), k, CountOne, s).val == k + LeadingCount(s, c)
    ensures ReduceFrom<nat, char>(Char(c), k, CountOne, s).rest == s[LeadingCount(s, c)..]
    decreases |s|
  {
    if 0 < |s| && s[0] == c {
      CountingReduce(c, k + 1, s[1..]);
      CountHit(c, k, s);
      DropDrop(s, 1, LeadingCount(s[1..], c));
    } else {
      CountMiss(c, k, s);
    }
  }

  /** A copy of `c` in front adds one to the count. */
  lemma CountHit(c: char, k: nat, s: string)
    requires 0 < |s| && s[0] == c
    ensures ReduceFrom<nat, char>(Char(c), k, CountOne, s) == ReduceFrom<nat, char>(Char(c), k + 1, CountOne, s[1..])
  {
    ReduceStep<nat, char>(Char(c), k, CountOne, s);
  }

  /** Anything else in front stops the count. */
  lemma CountMiss(c: char, k: nat, s: string)
    requires !(0 < |s| && s[0] == c)
    ensures ReduceFrom<nat, char>(Char(c), k, CountOne, s) == Success(k, s)
  {
    ReduceStep<nat, char>(Char(c), k, CountOne, s);
  }

  /** Skipping the copies of `c` with `maximalMunchDiscard(char(c))` leaves
      the input after them. */
  lemma {:induction false} SkippingChars(c: char, s: string)
    ensures SkipFrom(Char(c), s) == Success((), s[LeadingCount(s, c)..])
    decreases |s|
  {
    if 0 < |s| && s[0] == c {
      SkippingChars(c, s[1..]);
      DropDrop(s, 1, LeadingCount(s[1..], c));
    }
  }

  /** One step of `maximalMunch`: a success goes in front of the values
      read after it; a failure ends the run where it stands. */
  lemma MunchStep<A>(p: Parser<A>, s: string)
    requires StrictlyConsumes(p)
    ensures p(s).Success? ==> MunchFrom(p, s).val == [p(s).val] + MunchFrom(p, p(s).rest).val
    ensures p(s).Success? ==> MunchFrom(p, s).rest == MunchFrom(p, p(s).rest).rest
    ensures p(s).Failure? ==> MunchFrom(p, s).val == [] && MunchFrom(p, s).rest == s
  {
  }

  /** One success of `p` followed by the munch of what it leaves. */
  lemma MunchCons<A>(p: Parser<A>, s: string, v: A, t: string, vs: seq<A>, u: string)
    requires StrictlyConsumes(p)
    requires p(s).Success? && p(s).val == v && p(s).rest == t
    requires MunchFrom(p, t).val == vs && MunchFrom(p, t).rest == u
    ensures MunchFrom(p, s).val == [v] + vs && MunchFrom(p, s).rest == u
  {
    MunchStep(p, s);
  }

  /** `maximalMunch(digit)` reads the whole run of digits in front of `t`. */
  lemma {:induction false} MunchDigits(ds: string, t: string)
    requires AllDigits(ds)
    requires |t| == 0 || !('0' <= t[0] <= '9')
    ensures StrictlyConsumes(Digit)
    ensures MunchFrom(Digit, ds + t).val == ValuesOf(ds)
    ensures MunchFrom(Digit, ds + t).rest == t
    decreases |ds|
  {
    DigitStrictlyConsumes();
    if |ds| == 0 {
      MunchNoDigit(ds, t);
    } else {
      assert '0' <= ds[0] <= '9';
      DigitInFront(Digit, ds, t);
      MunchDigits(ds[1..], t);
      MunchCons<nat>(Digit, ds + t, ds[0] as int - '0' as int, ds[1..] + t, ValuesOf(ds[1..]), t);
    }
  }

  /** The base case of `MunchDigits`: no digit, nothing read. */
  lemma MunchNoDigit(ds: string, t: string)
    requires |ds| == 0
    requires |t| == 0 || !('0' <= t[0] <= '9')
    ensures StrictlyConsumes(Digit)
    ensures MunchFrom(Digit, ds + t).val == ValuesOf(ds)
    ensures MunchFrom(Digit, ds + t).rest == t
  {
    DigitStrictlyConsumes();
    assert ds + t == t;
    MunchStep(Digit, t);
  }

  /** `digit` reads the first character of `ds` in front of `t`. */
  lemma DigitInFront(p: Parser<nat>, ds: string, t: string)
    requires p == Digit
    requires 0 < |ds| && '0' <= ds[0] <= '9'
    ensures p(ds + t) == Success(ds[0] as int - '0' as int, ds[1..] + t)
  {
    SplitFirst(ds, t);
  }

  /** `n` copies of `digit` read exactly `n` digit characters. */
  lemma {:induction false} SequenceDigits(ps: seq<Parser<nat>>, ds: string, t: string)
    requires AllDigits(ds)
    requires |ps| == |ds| && forall i | 0 <= i < |ps| :: ps[i] == Digit
    ensures SequenceFrom(ps, ds + t).Success?
    ensures SequenceFrom(ps, ds + t).val == ValuesOf(ds)
    ensures SequenceFrom(ps, ds + t).rest == t
    decreases |ds|
  {
    if |ds| == 0 {
      assert ds + t == t;
    } else {
      assert ps[0] == Digit;
      assert '0' <= ds[0] <= '9';
      DigitInFront(ps[0], ds, t);
      SequenceDigits(ps[1..], ds[1..], t);
      var w := SequenceFrom(ps[1..], ds[1..] + t);
      SequenceCons<nat>(ps, ds + t, ds[0] as int - '0' as int, ds[1..] + t, w.val, w.rest);
    }
  }

  /** One success of the first parser followed by the rest of the
      sequence. */
  lemma SequenceCons<A>(ps: seq<Parser<A>>, s: string, v: A, t: string, vs: seq<A>, u: string)
    requires 0 < |ps| && ps[0](s).Success? && ps[0](s).val == v && ps[0](s).rest == t
    requires SequenceFrom(ps[1..], t).Success?
    requires SequenceFrom(ps[1..], t).val == vs && SequenceFrom(ps[1..], t).rest == u
    ensures SequenceFrom(ps, s).Success?
    ensures SequenceFrom(ps, s).val == [v] + vs && SequenceFrom(ps, s).rest == u
  {
  }

  lemma ValuesExamples()
    ensures ValuesOf("1234") == [1, 2, 3, 4]
    ensures ValuesOf("12345") == [1, 2, 3, 4, 5]
  {
    assert "1234"[1..] == "234" && "234"[1..] == "34" && "34"[1..] == "4" && "4"[1..] == "";
    assert "12345"[1..] == "2345" && "2345"[1..] == "345" && "345"[1..] == "45" && "45"[1..] == "5" && "5"[1..] == "";
  }

  /** `maximalMunch(digit)` on "1234foo". */
  lemma MunchExample(ds: string, t: string)
    requires ds == "1234" && t == "foo"
    ensures MaximalMunch(Digit)(ds + t).val == [1, 2, 3, 4]
    ensures MaximalMunch(Digit)(ds + t).rest == t
  {
    ValuesExamples();
    MunchDigits(ds, t);
  }

  lemma MunchNothingExample(s: string)
    requires s == "foo"
    ensures MaximalMunch(Digit)(s) == Success([], "foo")
  {
    DigitStrictlyConsumes();
    assert Digit(s).Failure?;
  }

  /** `maximalMunchDiscard(digit)` on "1234foo". */
  lemma DiscardExample(ds: string, t: string)
    requires ds == "1234" && t == "foo"
    ensures MaximalMunchDiscard(Digit)(ds + t) == Success((), t)
  {
    MunchDigits(ds, t);
    DiscardIsMunch(Digit, ds + t);
  }

  lemma DiscardNothingExample(s: string)
    requires s == "foo"
    ensures MaximalMunchDiscard(Digit)(s) == Success((), "foo")
  {
    DigitStrictlyConsumes();
    assert Digit(s).Failure?;
  }

  function Plus(x: nat, y: nat): nat
  {
    x + y
  }

  /** `maximalReduce(digit, 0, +)` on "12345foo". */
  lemma ReduceExample(ds: string, t: string)
    requires ds == "12345" && t == "foo"
    ensures MaximalReduce(Digit, 0, Plus)(ds + t).val == 15
    ensures MaximalReduce(Digit, 0, Plus)(ds + t).rest == t
  {
    MunchDigits(ds, t);
    ValuesExamples();
    ReduceIsFoldedMunch(Digit, 0, Plus, ds + t);
    assert FoldLeft(Plus, 0, [1, 2, 3, 4, 5]) == 15 by {
      assert [1, 2, 3, 4, 5][1..] == [2, 3, 4, 5];
      assert [2, 3, 4, 5][1..] == [3, 4, 5];
      assert [3, 4, 5][1..] == [4, 5];
      assert [4, 5][1..] == [5];
    }
  }

  lemma ReduceOfNothing()
    ensures MaximalReduce(Digit, 0, Plus)("foo") == Success(0, "foo")
  {
    DigitStrictlyConsumes();
    assert Digit("foo").Failure?;
  }

  lemma ChoiceExamples()
    ensures Or(Digit, Digit)("29foo") == Success(2, "9foo")
    ensures Any<nat>([])("foo").Failure?
    ensures Cond(Digit, (x: nat) => Succeed(x + 1), (e: Error) => Succeed(0))("1xxx") == Success(2, "1xxx")
    ensures Cond(Digit, (x: nat) => Succeed(x + 1), (e: Error) => Succeed(0))("xxx") == Success(0, "xxx")
    ensures End("") == Success("", "")
  {
    assert Digit("29foo") == Success(2, "9foo");
    assert Digit("1xxx") == Success(1, "xxx");
  }

  /** `maps` of five `digit`s with a sum, on "12345foo". */
  lemma MapsExample(ds: string, t: string)
    requires ds == "12345" && t == "foo"
    ensures Maps([Digit, Digit, Digit, Digit, Digit], Sum)(ds + t).Success?
    ensures Maps([Digit, Digit, Digit, Digit, Digit], Sum)(ds + t).val == 15
    ensures Maps([Digit, Digit, Digit, Digit, Digit], Sum)(ds + t).rest == t
  {
    var ps := [Digit, Digit, Digit, Digit, Digit];
    SequenceDigits(ps, ds, t);
    ValuesExamples();
    MapRuns(Sequence(ps), Sum, ds + t);
    assert Sum([1, 2, 3, 4, 5]) == 15 by {
      assert [1, 2, 3, 4, 5][1..] == [2, 3, 4, 5];
      assert [2, 3, 4, 5][1..] == [3, 4, 5];
      assert [3, 4, 5][1..] == [4, 5];
      assert [4, 5][1..] == [5];
    }
  }

}
