/** Nested brackets of three kinds, `()`, `[]` and `{}`: an expression is
    either nothing, or an opening bracket, an expression, and the matching
    closing bracket. A one-character lookahead decides which. */
module Brackets {
  import opened Results
  import opened Core
  import opened CoreLaws
  import opened Combinators
  import opened CombinatorLaws

  datatype Kind = Round | Square | Curly

  function Opener(k: Kind): char
  {
    match k
    case Round => '('
    case Square => '['
    case Curly => '{'
  }

  function Closer(k: Kind): char
  {
    match k
    case Round => ')'
    case Square => ']'
    case Curly => '}'
  }

  predicate IsOpener(c: char)
  {
    c == '(' || c == '[' || c == '{'
  }

  // ===== The grammar =====

  /** `insideParen([o, c], p)`: `o`, then `p`, then `c`, keeping `p`'s
      value. */
  function InsideParen<A>(o: char, c: char, p: Parser<A>): (r: Parser<A>)
    ensures Consumes(p) ==> StrictlyConsumes(r)
  {
    First(Second(Char(o), p), Char(c))
  }

  /** `paren(p)`: `p` inside round, square or curly brackets, tried in that
      order. */
  function Paren<A>(p: Parser<A>): (r: Parser<A>)
    ensures Consumes(p) ==> Consumes(r)
  {
    var round, square, curly := InsideParen('(', ')', p), InsideParen('[', ']', p), InsideParen('{', '}', p);
    assert Consumes(p) ==> Consumes(Any([round, square, curly])) by {
      if Consumes(p) {
        StrictlyConsumesConsumes(round);
        StrictlyConsumesConsumes(square);
        StrictlyConsumesConsumes(curly);
        AnyOfThreeConsumes(round, square, curly);
      }
    }
    Any([round, square, curly])
  }

  /** `openParen`: any of the three opening brackets. */
  function OpenParen(s: string): (r: Result<char>)
    ensures r.Success? <==> 0 < |s| && IsOpener(s[0])
    ensures r.Success? ==> r.val == s[0] && r.rest == s[1..]
  {
    var ps := [Char('('), Char('['), Char('{')];
    var r := Any(ps)(s);
    assert r.Failure? <==> forall i | 0 <= i < |ps| :: ps[i](s).Failure?;
    assert r.Success? ==> exists i | 0 <= i < |ps| :: r == ps[i](s);
    r
  }

  /** `exp`, for the expression inside the brackets that open `s`: every
      such expression is read from a text shorter than `s`. */
  function Below(s: string): (r: Parser<bool>)
    ensures Consumes(r)
    decreases |s|, 0
  {
    x => if |x| < |s| then Exp(x) else Failure(Message("expression makes no progress"))
  }

  /** `exp`: when an opening bracket comes next, a bracketed expression;
      otherwise nothing, successfully. */
  function Exp(s: string): (r: Result<bool>)
    ensures r.Success? ==> IsSuffix(r.rest, s)
    decreases |s|, 1
  {
    var onOpener := (ignored: char) => Paren(Below(s));
    var otherwise := (e: Error) => Succeed(true);
    CondRuns(OpenParen, onOpener, otherwise, s);
    assert OpenParen(s).Success? ==> Consumes(Paren(Below(s)));
    Cond(OpenParen, onOpener, otherwise)(s)
  }

  // ===== How the grammar runs =====

  /** `insideParen([o, c], p)` on a text that starts with `o` runs `p` on
      the rest and then needs `c`. */
  lemma InsideParenRuns<A>(o: char, c: char, p: Parser<A>, x: string)
    ensures InsideParen(o, c, p)([o] + x).Success? <==>
      p(x).Success? && 0 < |p(x).rest| && p(x).rest[0] == c
    ensures InsideParen(o, c, p)([o] + x).Success? ==>
      InsideParen(o, c, p)([o] + x) == Success(p(x).val, p(x).rest[1..])
  {
    var s := [o] + x;
    assert s[1..] == x;
    FirstSecondRun(Char(o), p, s);
    FirstSecondRun(Second(Char(o), p), Char(c), s);
  }

  /** `insideParen([o, c], p)` fails on a text that starts with anything
      but `o`. */
  lemma InsideParenNeedsOpener<A>(o: char, c: char, p: Parser<A>, s: string)
    requires 0 < |s| && s[0] != o
    ensures InsideParen(o, c, p)(s).Failure?
  {
    FirstSecondRun(Char(o), p, s);
    FirstSecondRun(Second(Char(o), p), Char(c), s);
  }

  /** The alternative of `paren(p)` for each kind of bracket. */
  lemma ParenRound<A>(p: Parser<A>, s: string)
    requires 0 < |s| && s[0] == '('
    ensures Paren(p)(s).Success? <==> InsideParen('(', ')', p)(s).Success?
    ensures Paren(p)(s).Success? ==> Paren(p)(s) == InsideParen('(', ')', p)(s)
  {
    AnyOfThree(InsideParen('(', ')', p), InsideParen('[', ']', p), InsideParen('{', '}', p), s);
    InsideParenNeedsOpener('[', ']', p, s);
    InsideParenNeedsOpener('{', '}', p, s);
  }

  lemma ParenSquare<A>(p: Parser<A>, s: string)
    requires 0 < |s| && s[0] == '['
    ensures Paren(p)(s).Success? <==> InsideParen('[', ']', p)(s).Success?
    ensures Paren(p)(s).Success? ==> Paren(p)(s) == InsideParen('[', ']', p)(s)
  {
    AnyOfThree(InsideParen('(', ')', p), InsideParen('[', ']', p), InsideParen('{', '}', p), s);
    InsideParenNeedsOpener('(', ')', p, s);
    InsideParenNeedsOpener('{', '}', p, s);
  }

  lemma ParenCurly<A>(p: Parser<A>, s: string)
    requires 0 < |s| && s[0] == '{'
    ensures Paren(p)(s).Success? <==> InsideParen('{', '}', p)(s).Success?
    ensures Paren(p)(s).Success? ==> Paren(p)(s) == InsideParen('{', '}', p)(s)
  {
    AnyOfThree(InsideParen('(', ')', p), InsideParen('[', ']', p), InsideParen('{', '}', p), s);
    InsideParenNeedsOpener('(', ')', p, s);
    InsideParenNeedsOpener('[', ']', p, s);
  }

  /** `paren(p)` on a text that starts with an opening bracket is the
      alternative for that bracket's kind. */
  lemma ParenPicks<A>(p: Parser<A>, k: Kind, x: string)
    ensures Paren(p)([Opener(k)] + x).Success? <==> InsideParen(Opener(k), Closer(k), p)([Opener(k)] + x).Success?
    ensures Paren(p)([Opener(k)] + x).Success? ==>
      Paren(p)([Opener(k)] + x) == InsideParen(Opener(k), Closer(k), p)([Opener(k)] + x)
  {
    match k {
      case Round => ParenRound(p, [Opener(k)] + x);
      case Square => ParenSquare(p, [Opener(k)] + x);
      case Curly => ParenCurly(p, [Opener(k)] + x);
    }
  }

  /** Where no opening bracket comes next, `exp` reads nothing. */
  lemma ExpOnNonOpener(s: string)
    requires |s| == 0 || !IsOpener(s[0])
    ensures Exp(s) == Success(true, s)
  {
    CondRuns(OpenParen, (ignored: char) => Paren(Below(s)), (e: Error) => Succeed(true), s);
  }

  /** After an opening bracket, `exp` reads an inner expression and then
      needs the matching closing bracket. */
  lemma ExpOnOpener(k: Kind, x: string)
    ensures Exp([Opener(k)] + x).Success? <==>
      Exp(x).Success? && 0 < |Exp(x).rest| && Exp(x).rest[0] == Closer(k)
    ensures Exp([Opener(k)] + x).Success? ==>
      Exp([Opener(k)] + x) == Success(Exp(x).val, Exp(x).rest[1..])
  {
    var s := [Opener(k)] + x;
    assert OpenParen(s).Success?;
    CondRuns(OpenParen, (ignored: char) => Paren(Below(s)), (e: Error) => Succeed(true), s);
    ParenPicks(Below(s), k, x);
    InsideParenRuns(Opener(k), Closer(k), Below(s), x);
    assert Below(s)(x) == Exp(x);
  }

  // ===== A reference definition of nesting =====

  /** The opening brackets of `ks`, outermost first. */
  function Opens(ks: seq<Kind>): (o: string)
    ensures |o| == |ks|
  {
    if |ks| == 0 then "" else [Opener(ks[0])] + Opens(ks[1..])
  }

  /** The closing brackets of `ks`, innermost first. */
  function Closes(ks: seq<Kind>): (c: string)
    ensures |c| == |ks|
  {
    if |ks| == 0 then "" else Closes(ks[1..]) + [Closer(ks[0])]
  }

  /** Closes one bracket with `c` at the front of what `m` left, if
      anything was left. */
  function CloseOne(m: Option<string>, c: char): Option<string>
  {
    match m
    case None => None
    case Some(u) => if 0 < |u| && u[0] == c then Some(u[1..]) else None
  }

  /** Closes the brackets `ks` opened, innermost first, against the front of
      `t`: the input left after the last one, or `None` at the first
      bracket that is missing or of the wrong kind. */
  function MatchCloses(ks: seq<Kind>, t: string): Option<string>
  {
    if |ks| == 0 then Some(t) else CloseOne(MatchCloses(ks[1..], t), Closer(ks[0]))
  }

  /** One bracket's step of the correspondence between `exp` and
      `MatchCloses`, stated on the results alone. */
  lemma CloseStep(inner: Result<bool>, outer: Result<bool>, c: char, m: Option<string>)
    requires inner.Success? <==> m.Some?
    requires inner.Success? ==> inner == Success(true, m.value)
    requires outer.Success? <==> inner.Success? && 0 < |inner.rest| && inner.rest[0] == c
    requires outer.Success? ==> outer == Success(inner.val, inner.rest[1..])
    ensures outer.Success? <==> CloseOne(m, c).Some?
    ensures outer.Success? ==> outer == Success(true, CloseOne(m, c).value)
  {
  }

  /** `exp` after a run of opening brackets is `MatchCloses` on what
      follows them: it succeeds exactly when every bracket is closed in the
      right order, always with the value `true`. */
  lemma {:induction false} ExpSpec(ks: seq<Kind>, t: string)
    requires |t| == 0 || !IsOpener(t[0])
    ensures Exp(Opens(ks) + t).Success? <==> MatchCloses(ks, t).Some?
    ensures Exp(Opens(ks) + t).Success? ==> Exp(Opens(ks) + t) == Success(true, MatchCloses(ks, t).value)
    decreases |ks|
  {
    if |ks| == 0 {
      assert Opens(ks) + t == t;
      ExpOnNonOpener(t);
    } else {
      var k, x := ks[0], Opens(ks[1..]) + t;
      OpensCons(ks, t);
      ExpSpec(ks[1..], t);
      ExpAroundInner(k, x, MatchCloses(ks[1..], t));
      SameOutcome(Exp([Opener(k)] + x), Exp(Opens(ks) + t),
        CloseOne(MatchCloses(ks[1..], t), Closer(k)), MatchCloses(ks, t));
    }
  }

  /** The `ExpSpec` correspondence carries over to equal results. */
  lemma SameOutcome(r: Result<bool>, r2: Result<bool>, m: Option<string>, m2: Option<string>)
    requires r == r2 && m == m2
    requires r.Success? <==> m.Some?
    requires r.Success? ==> r == Success(true, m.value)
    ensures r2.Success? <==> m2.Some?
    ensures r2.Success? ==> r2 == Success(true, m2.value)
  {
  }

  lemma OpensCons(ks: seq<Kind>, t: string)
    requires 0 < |ks|
    ensures Opens(ks) + t == [Opener(ks[0])] + (Opens(ks[1..]) + t)
  {
  }

  /** The step of `ExpSpec`: one more opening bracket around an inner
      expression that `MatchCloses` already describes as `m`. */
  lemma ExpAroundInner(k: Kind, x: string, m: Option<string>)
    requires Exp(x).Success? <==> m.Some?
    requires Exp(x).Success? ==> Exp(x) == Success(true, m.value)
    ensures Exp([Opener(k)] + x).Success? <==> CloseOne(m, Closer(k)).Some?
    ensures Exp([Opener(k)] + x).Success? ==> Exp([Opener(k)] + x) == Success(true, CloseOne(m, Closer(k)).value)
  {
    ExpOnOpener(k, x);
    CloseStep(Exp(x), Exp([Opener(k)] + x), Closer(k), m);
  }

  /** `MatchCloses` consumes exactly the closing brackets of `ks`. */
  lemma {:induction false} MatchClosesSound(ks: seq<Kind>, t: string)
    requires MatchCloses(ks, t).Some?
    ensures t == Closes(ks) + MatchCloses(ks, t).value
    decreases |ks|
  {
    if |ks| != 0 {
      MatchClosesSound(ks[1..], t);
      var u := MatchCloses(ks[1..], t).value;
      assert u == [Closer(ks[0])] + u[1..];
    }
  }

  lemma {:induction false} MatchClosesComplete(ks: seq<Kind>, u: string)
    ensures MatchCloses(ks, Closes(ks) + u) == Some(u)
    decreases |ks|
  {
    if |ks| != 0 {
      var v := [Closer(ks[0])] + u;
      assert Closes(ks) + u == Closes(ks[1..]) + v;
      MatchClosesComplete(ks[1..], v);
      assert v[1..] == u;
    } else {
      assert Closes(ks) + u == u;
    }
  }

  /** The bracket kind an opening bracket opens. */
  function KindOf(c: char): (k: Kind)
    requires IsOpener(c)
    ensures Opener(k) == c
  {
    if c == '(' then Round else if c == '[' then Square else Curly
  }

  /** The kinds of the opening brackets `s` starts with. */
  function LeadingKinds(s: string): (ks: seq<Kind>)
    ensures |ks| <= |s| && Opens(ks) == s[..|ks|]
    ensures |ks| == |s| || !IsOpener(s[|ks|])
  {
    if 0 < |s| && IsOpener(s[0]) then
      var ks := [KindOf(s[0])] + LeadingKinds(s[1..]);
      assert ks[1..] == LeadingKinds(s[1..]);
      ks
    else []
  }

  /** Every text is its leading opening brackets and what follows them. */
  lemma SplitOpens(s: string)
    ensures s == Opens(LeadingKinds(s)) + s[|LeadingKinds(s)|..]
  {
    var n := |LeadingKinds(s)|;
    assert s == s[..n] + s[n..];
  }

  /** Every text `exp` accepts starts with some brackets opened and then
      closed in the reverse order. */
  lemma ExpSound(s: string)
    requires Exp(s).Success?
    ensures Exp(s).val
    ensures s == Opens(LeadingKinds(s)) + Closes(LeadingKinds(s)) + Exp(s).rest
  {
    var ks := LeadingKinds(s);
    var t := s[|ks|..];
    SplitOpens(s);
    ExpSpec(ks, t);
    ReadAsNest(Exp(s), s, ks, t);
  }

  /** A success that agrees with `MatchCloses` read a nest of brackets. */
  lemma ReadAsNest(r: Result<bool>, s: string, ks: seq<Kind>, t: string)
    requires s == Opens(ks) + t
    requires r.Success? <==> MatchCloses(ks, t).Some?
    requires r.Success? ==> r == Success(true, MatchCloses(ks, t).value)
    requires r.Success?
    ensures r.val && s == Opens(ks) + Closes(ks) + r.rest
  {
    MatchClosesSound(ks, t);
  }

  /** `exp` accepts every nest of brackets, and leaves the input after it.
      After a nest of at least one pair the rest may start with anything;
      after the empty nest it must not start with an opening bracket (see
      `ExpMovesOnOpener`). */
  lemma ExpComplete(ks: seq<Kind>, t: string)
    requires 0 < |ks| || |t| == 0 || !IsOpener(t[0])
    ensures Exp(Opens(ks) + Closes(ks) + t) == Success(true, t)
  {
    ClosesThenNoOpener(ks, t);
    AppendAssoc(Opens(ks), Closes(ks), t);
    ExpSpec(ks, Closes(ks) + t);
    MatchClosesComplete(ks, t);
  }

  /** What follows a nest's opening brackets does not start with one. */
  lemma ClosesThenNoOpener(ks: seq<Kind>, t: string)
    requires 0 < |ks| || |t| == 0 || !IsOpener(t[0])
    ensures |Closes(ks) + t| == 0 || !IsOpener((Closes(ks) + t)[0])
  {
    if |ks| != 0 {
      assert (Closes(ks) + t)[0] == Closes(ks)[0];
      ClosesStartWithCloser(ks);
    }
  }

  lemma {:induction false} ClosesStartWithCloser(ks: seq<Kind>)
    requires |ks| != 0
    ensures !IsOpener(Closes(ks)[0])
    decreases |ks|
  {
    if |ks[1..]| != 0 {
      ClosesStartWithCloser(ks[1..]);
    }
  }

  /** On a text that starts with an opening bracket, `exp` either fails or
      reads at least that bracket. */
  lemma ExpMovesOnOpener(s: string)
    requires 0 < |s| && IsOpener(s[0])
    ensures Exp(s).Success? ==> |Exp(s).rest| < |s|
  {
    if Exp(s).Success? {
      ExpSound(s);
    }
  }

  /** `exp` reads a whole text exactly when the text is a nest of brackets. */
  lemma ExpAcceptsExactly(s: string)
    ensures (Exp(s).Success? && Exp(s).rest == "") <==> exists ks :: s == Opens(ks) + Closes(ks)
  {
    if Exp(s).Success? && Exp(s).rest == "" {
      ExpSound(s);
      assert s == Opens(LeadingKinds(s)) + Closes(LeadingKinds(s));
    }
    if exists ks :: s == Opens(ks) + Closes(ks) {
      var ks :| s == Opens(ks) + Closes(ks);
      ExpComplete(ks, "");
      assert Opens(ks) + Closes(ks) + "" == s;
    }
  }

  // ===== Behaviour the grammar's comments describe =====

  /** `paren(digit)` reads a digit inside any of the three kinds of
      brackets. */
  lemma ParenDigit(k: Kind, s: string)
    requires s == [Opener(k), '1', Closer(k)]
    ensures Paren(Digit)(s) == Success(1, "")
  {
    var x := ['1', Closer(k)];
    assert s == [Opener(k)] + x;
    assert Digit(x) == Success(1, [Closer(k)]);
    ParenPicks(Digit, k, x);
    InsideParenRuns(Opener(k), Closer(k), Digit, x);
  }

  lemma ParenDigitRoundExample(s: string)
    requires s == "(1)"
    ensures Paren(Digit)(s) == Success(1, "")
  {
    assert s == [Opener(Round), '1', Closer(Round)];
    ParenDigit(Round, s);
  }

  /** The nest `{([{}])}` is read to the end. */
  lemma NestExample(s: string)
    requires s == "{([{}])}"
    ensures Exp(s) == Success(true, "")
  {
    var ks := [Curly, Round, Square, Curly];
    assert Opens(ks) == "{([{";
    assert Closes(ks) == "}])}";
    assert s == Opens(ks) + Closes(ks) + "";
    ExpComplete(ks, "");
  }

  /** A bracket closed by the wrong kind is rejected. */
  lemma MismatchExample(s: string)
    requires s == "([)]"
    ensures Exp(s).Failure?
  {
    var ks := [Round, Square];
    assert Opens(ks) == "([";
    assert s == Opens(ks) + ")]";
    ExpSpec(ks, ")]");
    SquareMeetsRound(")]");
  }

  /** A `[` met by `)` is not closed. */
  lemma SquareMeetsRound(t: string)
    requires t == ")]"
    ensures MatchCloses([Square], t) == None
  {
    assert [Square][1..] == [];
  }

  /** Text after a complete nest is left unread. */
  lemma TrailingExample(s: string)
    requires s == "()x"
    ensures Exp(s) == Success(true, "x")
  {
    var ks := [Round];
    assert s == Opens(ks) + Closes(ks) + "x";
    ExpComplete(ks, "x");
  }

  /** Two nests in a row: only the first is read. */
  lemma ConcatenationExample(s: string)
    requires s == "()()"
    ensures Exp(s) == Success(true, "()")
  {
    var ks := [Round];
    assert s == Opens(ks) + Closes(ks) + "()";
    ExpComplete(ks, "()");
  }
}
