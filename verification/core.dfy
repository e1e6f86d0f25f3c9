/** The combinator algebra: the monadic unit and bind, the sequencing
    combinators derived from them, the fluent aliases of the parser class,
    and the `digit` primitive. */
module Core {
  import opened Results

  // ===== Unit, failure and bind =====

  /** `succeed(a)`: consumes nothing and yields `a`. */
  function Succeed<A>(a: A): (r: Parser<A>)
    ensures forall s :: r(s).Success? && r(s).val == a && r(s).rest == s
  {
    s => Success(a, s)
  }

  /** `fail(msg)`: fails with `msg` whatever the input. */
  function Fail<A>(msg: Error): (r: Parser<A>)
    ensures forall s :: r(s).Failure? && r(s).message == msg
  {
    _ => Failure(msg)
  }

  /** `then(p, f)`, the bind: runs `f` of `p`'s value on what `p` left, and
      returns `p`'s failure unchanged when `p` fails. Binding parsers that only
      consume prefixes gives a parser that only consumes a prefix. */
  function Then<A, B>(p: Parser<A>, f: A -> Parser<B>): (r: Parser<B>)
    ensures Consumes(p) && ConsumesAfter(p, f) ==> Consumes(r)
    ensures StrictlyConsumes(p) && ConsumesAfter(p, f) ==> StrictlyConsumes(r)
  {
    var r: Parser<B> := s =>
      var v := p(s);
      if v.Success? then f(v.val)(v.rest) else Propagate(v);
    assert Consumes(p) && ConsumesAfter(p, f) ==> Consumes(r) by {
      if Consumes(p) && ConsumesAfter(p, f) {
        forall s | r(s).Success? ensures IsSuffix(r(s).rest, s) {
          SuffixTransitive(r(s).rest, p(s).rest, s);
        }
      }
    }
    assert StrictlyConsumes(p) && ConsumesAfter(p, f) ==> StrictlyConsumes(r) by {
      if StrictlyConsumes(p) && ConsumesAfter(p, f) {
        forall s | r(s).Success? ensures IsSuffix(r(s).rest, s) && |r(s).rest| < |s| {
          SuffixTransitive(r(s).rest, p(s).rest, s);
        }
      }
    }
    r
  }

  // ===== Sequencing =====

  /** `second(p, q)`: runs `p` then `q` on what `p` left and keeps `q`'s
      value; fails with whichever of the two failed first. */
  function Second<A, B>(p: Parser<A>, q: Parser<B>): (r: Parser<B>)
    ensures Consumes(p) && Consumes(q) ==> Consumes(r)
    ensures StrictlyConsumes(p) && Consumes(q) ==> StrictlyConsumes(r)
  {
    var r: Parser<B> := s =>
      var v := p(s);
      if v.Success? then q(v.rest) else Propagate(v);
    assert Consumes(p) && Consumes(q) ==> Consumes(r) by {
      if Consumes(p) && Consumes(q) {
        forall s | r(s).Success? ensures IsSuffix(r(s).rest, s) {
          SuffixTransitive(r(s).rest, p(s).rest, s);
        }
      }
    }
    assert StrictlyConsumes(p) && Consumes(q) ==> StrictlyConsumes(r) by {
      if StrictlyConsumes(p) && Consumes(q) {
        forall s | r(s).Success? ensures IsSuffix(r(s).rest, s) && |r(s).rest| < |s| {
          SuffixTransitive(r(s).rest, p(s).rest, s);
        }
      }
    }
    r
  }

  /** `first(p, q)`: runs `p` then `q` on what `p` left and keeps `p`'s
      value with `q`'s rest; fails with whichever of the two failed first. */
  function First<A, B>(p: Parser<A>, q: Parser<B>): (r: Parser<A>)
    ensures Consumes(p) && Consumes(q) ==> Consumes(r)
    ensures StrictlyConsumes(p) && Consumes(q) ==> StrictlyConsumes(r)
  {
    var r: Parser<A> := s =>
      var v := p(s);
      if v.Success? then
        var w := q(v.rest);
        if w.Success? then Success(v.val, w.rest) else Propagate(w)
      else v;
    assert Consumes(p) && Consumes(q) ==> Consumes(r) by {
      if Consumes(p) && Consumes(q) {
        forall s | r(s).Success? ensures IsSuffix(r(s).rest, s) {
          SuffixTransitive(r(s).rest, p(s).rest, s);
        }
      }
    }
    assert StrictlyConsumes(p) && Consumes(q) ==> StrictlyConsumes(r) by {
      if StrictlyConsumes(p) && Consumes(q) {
        forall s | r(s).Success? ensures IsSuffix(r(s).rest, s) && |r(s).rest| < |s| {
          SuffixTransitive(r(s).rest, p(s).rest, s);
        }
      }
    }
    r
  }

  /** `map(p, f)`: applies `f` to `p`'s value and keeps `p`'s rest. */
  function Map<A, B>(p: Parser<A>, f: A -> B): (r: Parser<B>)
    ensures forall s :: r(s).Success? <==> p(s).Success?
    ensures forall s :: r(s).Success? ==> r(s).rest == p(s).rest
    ensures Consumes(p) ==> Consumes(r)
    ensures StrictlyConsumes(p) ==> StrictlyConsumes(r)
  {
    s =>
      var v := p(s);
      if v.Success? then Success(f(v.val), v.rest) else Propagate(v)
  }

  /** The result of `pair` exactly as the source builds it: the fields of a
      failed second parse are read as if they were present, so they come out
      absent (`None`) instead of making the whole parse fail. */
  datatype LooseResult<+A> = LooseFailure(message: Error) | LooseSuccess(val: A, rest: Option<string>)

  /** `pair(p, q)` as written: once `p` succeeds the result is a success,
      whether or not `q` succeeded. */
  function PairAsWritten<A, B>(p: Parser<A>, q: Parser<B>): (r: string -> LooseResult<(A, Option<B>)>)
    ensures forall s :: r(s).LooseSuccess? <==> p(s).Success?
  {
    s =>
      var v := p(s);
      if v.Success? then
        var w := q(v.rest);
        LooseSuccess((v.val, if w.Success? then Some(w.val) else None),
                     if w.Success? then Some(w.rest) else None)
      else LooseFailure(v.message)
  }

  /** `pair(p, q)` as its callers use it: both values, in order, with `q`'s
      rest, failing with whichever of the two failed first. */
  function Pair<A, B>(p: Parser<A>, q: Parser<B>): (r: Parser<(A, B)>)
    ensures forall s :: r(s).Success? <==> p(s).Success? && q(p(s).rest).Success?
    ensures Consumes(p) && Consumes(q) ==> Consumes(r)
  {
    var r: Parser<(A, B)> := s =>
      var v := p(s);
      if v.Success? then
        var w := q(v.rest);
        if w.Success? then Success((v.val, w.val), w.rest) else Propagate(w)
      else Propagate(v);
    assert Consumes(p) && Consumes(q) ==> Consumes(r) by {
      if Consumes(p) && Consumes(q) {
        forall s | r(s).Success? ensures IsSuffix(r(s).rest, s) {
          SuffixTransitive(r(s).rest, p(s).rest, s);
        }
      }
    }
    r
  }

  // ===== The `digit` primitive =====

  /** The list `isDigit` searches: the ten decimal digit characters. */
  const DigitChars: seq<char> := ['0', '1', '2', '3', '4', '5', '6', '7', '8', '9']

  /** `isDigit`: `c` is one of `DigitChars`, stated as the code point range
      they occupy (`IsDigitInList` shows the two agree). */
  predicate IsDigit(c: char)
  {
    '0' <= c <= '9'
  }

  lemma IsDigitInList(c: char)
    ensures IsDigit(c) <==> c in DigitChars
  {
  }

  /** `digits2values`: the table from digit characters to their values. */
  const DigitValues: map<char, nat> :=
    map['0' := 0, '1' := 1, '2' := 2, '3' := 3, '4' := 4,
        '5' := 5, '6' := 6, '7' := 7, '8' := 8, '9' := 9]

  /** The value `digits2values` gives the digit character `c`, computed from
      its code point; `DigitValuesAgree` shows it is the table's entry. */
  function DigitValue(c: char): nat
    requires IsDigit(c)
  {
    c as int - '0' as int
  }

  /** `digits2values` gives every digit character the value `DigitValue`
      computes, and has no other keys. */
  lemma DigitValuesAgree(c: char)
    ensures c in DigitValues <==> IsDigit(c)
    ensures IsDigit(c) ==> DigitValues[c] == DigitValue(c)
  {
  }

  /** `digit`: reads one decimal digit and yields its value. */
  function Digit(s: string): (r: Result<nat>)
    ensures r.Success? <==> 0 < |s| && '0' <= s[0] <= '9'
    ensures r.Success? ==> r.val == s[0] as int - '0' as int && r.val <= 9
    ensures r.Success? ==> r.rest == s[1..]
  {
    if |s| == 0 then
      Failure(Message("Expected a digit instead of empty string"))
    else if IsDigit(s[0]) then
      Success(DigitValue(s[0]), s[1..])
    else
      Failure(Message("Expected a digit instead of '" + [s[0]] + "'"))
  }

  /** `digit` on a digit character followed by anything. */
  lemma DigitOn(c: char, t: string)
    requires '0' <= c <= '9'
    ensures Digit([c] + t) == Success(c as int - '0' as int, t)
  {
    assert ([c] + t)[1..] == t;
  }

  /** `digit` on the text after the first `z` characters of `s`. */
  lemma DigitAt(s: string, z: nat)
    requires z < |s| && '0' <= s[z] <= '9'
    ensures Digit(s[z..]).Success?
    ensures Digit(s[z..]).val == s[z] as int - '0' as int
    ensures Digit(s[z..]).rest == s[z + 1..]
  {
    assert s[z..][0] == s[z];
    assert s[z..][1..] == s[z + 1..];
  }

  /** `digit` fails after the first `z` characters of `s` when no digit
      follows them. */
  lemma NoDigitAt(s: string, z: nat)
    requires z <= |s| && !(z < |s| && '0' <= s[z] <= '9')
    ensures Digit(s[z..]).Failure?
  {
    if z < |s| {
      assert s[z..][0] == s[z];
    }
  }

  /** Every character of `ds` is a decimal digit. */
  predicate AllDigits(ds: string)
  {
    forall i | 0 <= i < |ds| :: '0' <= ds[i] <= '9'
  }

  /** The values of the digit characters `ds`, in order. */
  function ValuesOf(ds: string): (vs: seq<nat>)
    requires AllDigits(ds)
    ensures |vs| == |ds|
  {
    if |ds| == 0 then [] else [ds[0] as int - '0' as int] + ValuesOf(ds[1..])
  }

  lemma DigitStrictlyConsumes()
    ensures StrictlyConsumes(Digit)
  {
  }

  // ===== The fluent methods of the parser class =====

  /** A parser object: `consume` runs it, and the methods are the free
      combinators with the object as first argument. */
  datatype FluentParser<A> = Fluent(consume: Parser<A>) {

    /** `p.then(f)` */
    function Bind<B>(f: A -> FluentParser<B>): FluentParser<B>
    {
      Fluent(Then(consume, a => f(a).consume))
    }

    /** `p._then(q)` */
    function SkipLeft<B>(q: FluentParser<B>): FluentParser<B>
    {
      Fluent(Second(consume, q.consume))
    }

    /** `p.then_(q)` */
    function SkipRight<B>(q: FluentParser<B>): FluentParser<A>
    {
      Fluent(First(consume, q.consume))
    }

    /** `p.map(f)` */
    function Fmap<B>(f: A -> B): FluentParser<B>
    {
      Fluent(Map(consume, f))
    }
  }
}
