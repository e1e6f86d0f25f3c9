/** The combinators the example grammars import from the library but whose
    definitions are not part of this model's source: `char`, `or`, `any`,
    `maximalMunch`, `maximalMunchDiscard`, `maximalReduce`, `sequence`,
    `maps`, `end` and `cond`. Each is given the least definition that agrees
    with the library's documented behaviour and with its test harness; they
    are assumptions, stated here once and used by every grammar. */
module Combinators {
  import opened Results
  import opened Core

  // ===== Characters and end of input =====

  /** `char(c)`: reads the single character `c`. */
  function Char(c: char): (r: Parser<char>)
    ensures forall s :: r(s).Success? <==> 0 < |s| && s[0] == c
    ensures forall s :: r(s).Success? ==> r(s).val == c && r(s).rest == s[1..]
    ensures StrictlyConsumes(r)
  {
    s =>
      if 0 < |s| && s[0] == c then Success(c, s[1..])
      else Failure(Message("Expected '" + [c] + "'"))
  }

  /** `end`: succeeds, with the empty string, only on exhausted input; it
      otherwise fails with the input that is left. */
  function End(s: string): (r: Result<string>)
    ensures r.Success? <==> |s| == 0
    ensures r.Success? ==> r.val == "" && r.rest == s
    ensures r.Failure? ==> r.message == Message(s)
  {
    if |s| == 0 then Success("", s) else Failure(Message(s))
  }

  // ===== Ordered choice =====

  /** `or(p, q)`: `p` on the input, else `q` on the same input; when both
      fail, both errors in order. */
  function Or<A>(p: Parser<A>, q: Parser<A>): (r: Parser<A>)
    ensures Consumes(p) && Consumes(q) ==> Consumes(r)
    ensures StrictlyConsumes(p) && StrictlyConsumes(q) ==> StrictlyConsumes(r)
  {
    s =>
      var v := p(s);
      if v.Success? then v
      else
        var w := q(s);
        if w.Success? then w else Failure(Alternatives([v.message, w.message]))
  }

  /** The errors of the alternatives `ps` on `s`, in order. */
  function ErrorsOf<A>(ps: seq<Parser<A>>, s: string): (es: seq<Error>)
    requires forall i | 0 <= i < |ps| :: ps[i](s).Failure?
    ensures |es| == |ps|
    ensures forall i | 0 <= i < |ps| :: es[i] == ps[i](s).message
  {
    if |ps| == 0 then [] else [ps[0](s).message] + ErrorsOf(ps[1..], s)
  }

  /** Tries `ps` in order on the same input `s`; `errs` holds the errors of
      the alternatives already tried. */
  function AnyFrom<A>(ps: seq<Parser<A>>, s: string, errs: seq<Error>): (r: Result<A>)
    ensures r.Failure? <==> forall i | 0 <= i < |ps| :: ps[i](s).Failure?
    ensures r.Failure? ==> r.message == Alternatives(errs + ErrorsOf(ps, s))
    ensures r.Success? ==>
      exists i | 0 <= i < |ps| :: r == ps[i](s) && forall j | 0 <= j < i :: ps[j](s).Failure?
    decreases |ps|
  {
    if |ps| == 0 then
      assert errs + ErrorsOf(ps, s) == errs;
      Failure(Alternatives(errs))
    else
      var v := ps[0](s);
      if v.Success? then v
      else
        var r := AnyFrom(ps[1..], s, errs + [v.message]);
        AnyFromStep(ps, s, errs, r);
        r
  }

  /** The contract of `AnyFrom` carries over from the alternatives after a
      failed first one to the whole list. */
  lemma AnyFromStep<A>(ps: seq<Parser<A>>, s: string, errs: seq<Error>, r: Result<A>)
    requires 0 < |ps| && ps[0](s).Failure?
    requires r.Failure? <==> forall i | 0 <= i < |ps[1..]| :: ps[1..][i](s).Failure?
    requires r.Failure? ==> r.message == Alternatives(errs + [ps[0](s).message] + ErrorsOf(ps[1..], s))
    requires r.Success? ==>
      exists i | 0 <= i < |ps[1..]| :: r == ps[1..][i](s) && forall j | 0 <= j < i :: ps[1..][j](s).Failure?
    ensures r.Failure? <==> forall i | 0 <= i < |ps| :: ps[i](s).Failure?
    ensures r.Failure? ==> r.message == Alternatives(errs + ErrorsOf(ps, s))
    ensures r.Success? ==>
      exists i | 0 <= i < |ps| :: r == ps[i](s) && forall j | 0 <= j < i :: ps[j](s).Failure?
  {
    if r.Success? {
      var i :| 0 <= i < |ps[1..]| && r == ps[1..][i](s) && forall j | 0 <= j < i :: ps[1..][j](s).Failure?;
      assert r == ps[i + 1](s) && forall j | 0 <= j < i + 1 :: ps[j](s).Failure?;
    } else {
      assert forall i | 0 <= i < |ps| :: ps[i](s).Failure? by {
        forall i | 0 <= i < |ps| ensures ps[i](s).Failure? {
          if 0 < i {
            assert ps[i] == ps[1..][i - 1];
          }
        }
      }
      assert errs + ErrorsOf(ps, s) == errs + [ps[0](s).message] + ErrorsOf(ps[1..], s);
    }
  }

  /** `any(ps)`: the first alternative of `ps` that succeeds on the input;
      when all fail, every error in order (so `any([])` always fails). */
  function Any<A>(ps: seq<Parser<A>>): (r: Parser<A>)
    ensures (forall i | 0 <= i < |ps| :: Consumes(ps[i])) ==> Consumes(r)
  {
    s => AnyFrom(ps, s, [])
  }

  lemma AnyOfThreeConsumes<A>(a: Parser<A>, b: Parser<A>, c: Parser<A>)
    requires Consumes(a) && Consumes(b) && Consumes(c)
    ensures Consumes(Any([a, b, c]))
  {
    var ps := [a, b, c];
    assert forall i | 0 <= i < |ps| :: Consumes(ps[i]);
  }

  // ===== Repetition =====

  /** The values of the successive successes of `p` from `s` on, and the
      input left where `p` first fails. */
  function MunchFrom<A>(p: Parser<A>, s: string): (r: Result<seq<A>>)
    requires StrictlyConsumes(p)
    ensures r.Success? && IsSuffix(r.rest, s)
    ensures p(r.rest).Failure?
    ensures |r.val| <= |s| - |r.rest|
    decreases |s|
  {
    var v := p(s);
    if v.Success? then
      var more := MunchFrom(p, v.rest);
      SuffixTransitive(more.rest, v.rest, s);
      Success([v.val] + more.val, more.rest)
    else Success([], s)
  }

  /** `maximalMunch(p)`: zero or more `p`, collecting their values in order;
      it never fails. */
  function MaximalMunch<A>(p: Parser<A>): (r: Parser<seq<A>>)
    requires StrictlyConsumes(p)
    ensures Consumes(r)
  {
    s => MunchFrom(p, s)
  }

  /** Folds the values of the successive successes of `p` from `s` on into
      `acc` with `step`. */
  function ReduceFrom<S, A>(p: Parser<A>, acc: S, step: (S, A) -> S, s: string): (r: Result<S>)
    requires StrictlyConsumes(p)
    ensures r.Success? && IsSuffix(r.rest, s)
    ensures p(r.rest).Failure?
    decreases |s|
  {
    var v := p(s);
    if v.Success? then
      var more := ReduceFrom(p, step(acc, v.val), step, v.rest);
      SuffixTransitive(more.rest, v.rest, s);
      more
    else Success(acc, s)
  }

  /** `maximalReduce(p, init, step)`: zero or more `p`, folding their values
      left to right from `init`; it never fails. */
  function MaximalReduce<S, A>(p: Parser<A>, init: S, step: (S, A) -> S): (r: Parser<S>)
    requires StrictlyConsumes(p)
    ensures Consumes(r)
  {
    s => ReduceFrom(p, init, step, s)
  }

  /** Skips the successive successes of `p` from `s` on. */
  function SkipFrom<A>(p: Parser<A>, s: string): (r: Result<()>)
    requires StrictlyConsumes(p)
    ensures r.Success? && IsSuffix(r.rest, s)
    ensures p(r.rest).Failure?
    decreases |s|
  {
    var v := p(s);
    if v.Success? then
      var more := SkipFrom(p, v.rest);
      SuffixTransitive(more.rest, v.rest, s);
      more
    else Success((), s)
  }

  /** `maximalMunchDiscard(p)`: zero or more `p`, discarding their values;
      it never fails. */
  function MaximalMunchDiscard<A>(p: Parser<A>): (r: Parser<()>)
    requires StrictlyConsumes(p)
    ensures Consumes(r)
  {
    s => SkipFrom(p, s)
  }

  // ===== Sequences of parsers =====

  /** Runs `ps` one after the other from `s`, collecting their values. */
  function SequenceFrom<A>(ps: seq<Parser<A>>, s: string): (r: Result<seq<A>>)
    ensures r.Success? ==> |r.val| == |ps|
    ensures (forall i | 0 <= i < |ps| :: Consumes(ps[i])) && r.Success? ==> IsSuffix(r.rest, s)
    decreases |ps|
  {
    if |ps| == 0 then Success([], s)
    else
      var v := ps[0](s);
      if v.Success? then
        var w := SequenceFrom(ps[1..], v.rest);
        if w.Success? then
          assert (forall i | 0 <= i < |ps| :: Consumes(ps[i])) ==> IsSuffix(w.rest, s) by {
            if forall i | 0 <= i < |ps| :: Consumes(ps[i]) {
              assert Consumes(ps[0]);
              assert forall i | 0 <= i < |ps[1..]| :: Consumes(ps[1..][i]) by {
                forall i | 0 <= i < |ps[1..]| ensures Consumes(ps[1..][i]) {
                  assert ps[1..][i] == ps[i + 1];
                }
              }
              SuffixTransitive(w.rest, v.rest, s);
            }
          }
          Success([v.val] + w.val, w.rest)
        else Propagate(w)
      else Propagate(v)
  }

  /** `sequence(ps)`: all of `ps` in order, failing with the first failure. */
  function Sequence<A>(ps: seq<Parser<A>>): (r: Parser<seq<A>>)
    ensures forall s :: r(s).Success? ==> |r(s).val| == |ps|
  {
    s => SequenceFrom(ps, s)
  }

  /** `maps(ps, f)`: `sequence(ps)` with `f` applied to the values. */
  function Maps<A, B>(ps: seq<Parser<A>>, f: seq<A> -> B): (r: Parser<B>)
    ensures forall s :: r(s).Success? <==> Sequence(ps)(s).Success?
  {
    Map(Sequence(ps), f)
  }

  // ===== Lookahead switch =====

  /** `p.cond(onSuccess, onFailure)`: probes `p`, then runs the branch its
      outcome selects on the ORIGINAL input. */
  function Cond<A, B>(p: Parser<A>, onSuccess: A -> Parser<B>, onFailure: Error -> Parser<B>): (r: Parser<B>)
    ensures
      && (forall s :: p(s).Success? ==> Consumes(onSuccess(p(s).val)))
      && (forall s :: p(s).Failure? ==> Consumes(onFailure(p(s).message)))
      ==> Consumes(r)
  {
    s =>
      var v := p(s);
      if v.Success? then onSuccess(v.val)(s) else onFailure(v.message)(s)
  }
}
