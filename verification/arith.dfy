/** N-ary arithmetic expressions in prefix notation: numerals, and
    `(+ e1 … ek)` / `(* e1 … ek)` over any number of operands, each preceded
    by spaces. The AST, its printer and evaluator, the grammar, and the
    whole-program parser that allows spaces around the expression. */
module Arith {
  import opened Results
  import opened Core
  import opened CoreLaws
  import opened Combinators
  import opened CombinatorLaws
  import opened Lexical
  import Numbers
  import BinaryArith

  datatype Expr = Nat(n: nat) | Add(xs: seq<Expr>) | Mul(xs: seq<Expr>)

  // ===== Printing =====

  /** `showSeq`: the operands' texts joined by single spaces. */
  function ShowSeq(xs: seq<Expr>): string
    decreases xs, 0
  {
    if |xs| == 0 then ""
    else if |xs| == 1 then Show(xs[0])
    else Show(xs[0]) + " " + ShowSeq(xs[1..])
  }

  /** `show`: the prefix notation of `e`. */
  function Show(e: Expr): string
    decreases e, 1
  {
    match e
    case Nat(n) => Numbers.ShowNat(n)
    case Add(xs) => ShowList('+', ShowSeq(xs))
    case Mul(xs) => ShowList('*', ShowSeq(xs))
  }

  /** The concrete syntax of a list with operator `op` and operand text
      `body`. */
  function ShowList(op: char, body: string): string
  {
    "(" + [op] + " " + body + ")"
  }

  // ===== Evaluation =====

  function Times(x: nat, y: nat): nat
  {
    x * y
  }

  /** `sum`: a left fold of `+` from 0. */
  function Sum(vs: seq<nat>): nat
  {
    FoldLeft(Plus, 0, vs)
  }

  /** `prod`: a left fold of `*` from 1. */
  function Prod(vs: seq<nat>): nat
  {
    FoldLeft(Times, 1, vs)
  }

  /** `xs.map(Eval)` */
  function EvalAll(xs: seq<Expr>): (vs: seq<nat>)
    ensures |vs| == |xs|
    ensures forall i | 0 <= i < |xs| :: vs[i] == Eval(xs[i])
    decreases xs, 0
  {
    if |xs| == 0 then [] else [Eval(xs[0])] + EvalAll(xs[1..])
  }

  /** `Eval`: the sum or the product of the operands' values. */
  function Eval(e: Expr): nat
    decreases e, 1
  {
    match e
    case Nat(n) => n
    case Add(xs) => Sum(EvalAll(xs))
    case Mul(xs) => Prod(EvalAll(xs))
  }

  /** `(1 + 2) * 3 * 4` */
  const Exp3: Expr := Mul([Add([Nat(1), Nat(2)]), Nat(3), Nat(4)])

  // ===== Parsing =====

  /** `opTable`: the node an operator symbol builds; `operator` only ever
      yields `+` or `*`. */
  function OpTable(op: char, xs: seq<Expr>): (e: Expr)
    ensures op == '+' ==> e == Add(xs)
    ensures op == '*' ==> e == Mul(xs)
  {
    if op == '+' then Add(xs) else Mul(xs)
  }

  /** `xs => op(xs)` for the node constructor `op` names. */
  function Build(op: char): seq<Expr> -> Expr
  {
    xs => OpTable(op, xs)
  }

  /** One operand of a list: `$_` then `p`. */
  function Operand<A>(p: Parser<A>): (r: Parser<A>)
    requires Consumes(p)
    ensures StrictlyConsumes(r)
  {
    LexicalConsumption();
    Second(Ws1, p)
  }

  /** `preDelimitedSeq(p)`: zero or more `p`, each after at least one
      space. */
  function PreDelimitedSeq<A>(p: Parser<A>): (r: Parser<seq<A>>)
    requires Consumes(p)
    ensures Consumes(r)
  {
    MaximalMunch(Operand(p))
  }

  /** The operands of a list, built into the node of the operator `op`. */
  function Operands(p: Parser<Expr>): (f: char -> Parser<Expr>)
    requires Consumes(p)
    ensures forall op :: Consumes(f(op))
  {
    op => Map(PreDelimitedSeq(p), Build(op))
  }

  /** The head of a list: `(`, `_`, then the operator. */
  function ListHead(s: string): (r: Result<char>)
    ensures r.Success? ==> IsSuffix(r.rest, s) && |r.rest| < |s|
  {
    LexicalConsumption();
    Second(Second(Char('('), Ws), Operator)(s)
  }

  /** `list(p)`: `(`, `_`, the operator, the operands, `_`, `)`. */
  function List(p: Parser<Expr>): (r: Parser<Expr>)
    requires Consumes(p)
    ensures StrictlyConsumes(r)
  {
    LexicalConsumption();
    assert StrictlyConsumes(ListHead);
    assert ConsumesAfter(ListHead, Operands(p));
    First(First(Then(ListHead, Operands(p)), Ws), Char(')'))
  }

  // ===== Expressions and programs =====

  /** `natExpr`: a numeral, as a leaf. */
  function NatExpr(s: string): (r: Result<Expr>)
    ensures r.Success? ==> IsSuffix(r.rest, s) && |r.rest| < |s|
  {
    Numbers.NatStrictlyConsumes();
    MapRuns(Numbers.Nat, n => Nat(n), s);
    Map(Numbers.Nat, n => Nat(n))(s)
  }

  /** `expr`, for the operands of a list read from within `s`: every such
      operand is shorter than `s`. */
  function Below(s: string): (r: Parser<Expr>)
    ensures Consumes(r)
    decreases |s|, 0
  {
    x => if |x| < |s| then ParseExpr(x) else Failure(Message("expression makes no progress"))
  }

  /** `expr`: a numeral, or else a list of expressions. */
  function ParseExpr(s: string): (r: Result<Expr>)
    ensures r.Success? ==> IsSuffix(r.rest, s) && |r.rest| < |s|
    decreases |s|, 1
  {
    var q := List(Below(s));
    var r := Or(NatExpr, q)(s);
    assert r.Success? ==> IsSuffix(r.rest, s) && |r.rest| < |s| by {
      OrRuns(NatExpr, q, s);
      if NatExpr(s).Success? {
        MapRuns(Numbers.Nat, n => Nat(n), s);
        Numbers.NatStopsAtNonDigit(s);
      }
    }
    r
  }

  /** `program`: `_`, an expression, `_`, then the end of the input. */
  function Program(s: string): Result<Expr>
  {
    First(First(Second(Ws, ParseExpr), Ws), End)(s)
  }

  // ===== Reading back what `show` writes =====

  /** Each operand's text preceded by one space: what `preDelimitedSeq`
      reads. */
  function PreShow(xs: seq<Expr>): (t: string)
    ensures |xs| == 0 <==> |t| == 0
  {
    if |xs| == 0 then "" else " " + Show(xs[0]) + PreShow(xs[1..])
  }

  /** A printed expression starts with `(` or with a digit, never with a
      space. */
  lemma ShowStarts(e: Expr)
    ensures 0 < |Show(e)|
    ensures Show(e)[0] == '(' || '0' <= Show(e)[0] <= '9'
  {
    match e
    case Nat(n) =>
    case Add(xs) => assert Show(e)[0] == '(';
    case Mul(xs) => assert Show(e)[0] == '(';
  }

  /** A non-empty `showSeq`, after one space, is the space-prefixed form. */
  lemma {:induction false} ShowSeqIsPreShow(xs: seq<Expr>)
    requires 0 < |xs|
    ensures " " + ShowSeq(xs) == PreShow(xs)
  {
    if |xs| == 1 {
      assert xs[1..] == [];
    } else {
      ShowSeqIsPreShow(xs[1..]);
    }
  }

  /** The text from the `i`-th operand on is no longer than all of it. */
  lemma {:induction false} PreShowDrop(xs: seq<Expr>, i: nat)
    requires i <= |xs|
    ensures |PreShow(xs[i..])| <= |PreShow(xs)|
    decreases i
  {
    if i != 0 {
      PreShowDrop(xs[1..], i - 1);
      assert xs[1..][i - 1..] == xs[i..];
    }
  }

  /** One operand: `$_` reads the one space before the operand's text, then
      `p` reads the text, and the munch goes on after it. */
  lemma OperandReads<A>(p: Parser<A>, x: string, more: string, v: A, vs: seq<A>, u: string)
    requires Consumes(p)
    requires 0 < |x| && x[0] != ' '
    requires p(x + more) == Success(v, more)
    requires MunchFrom(Operand(p), more).val == vs && MunchFrom(Operand(p), more).rest == u
    ensures MunchFrom(Operand(p), " " + x + more).val == [v] + vs
    ensures MunchFrom(Operand(p), " " + x + more).rest == u
  {
    OneSpace(x, more);
    FirstSecondRun(Ws1, p, " " + x + more);
    MunchCons(Operand(p), " " + x + more, v, more, vs, u);
  }

  /** The printed operands, the first split off, followed by `u`. */
  lemma PreShowThen(xs: seq<Expr>, u: string)
    requires 0 < |xs|
    ensures PreShow(xs) + u == " " + Show(xs[0]) + (PreShow(xs[1..]) + u)
  {
  }

  /** The operands after the first satisfy what the first satisfied. */
  lemma OperandsTail(p: Parser<Expr>, xs: seq<Expr>, u: string)
    requires 0 < |xs|
    requires forall i | 0 <= i < |xs| ::
      p(Show(xs[i]) + (PreShow(xs[i + 1..]) + u)) == Success(xs[i], PreShow(xs[i + 1..]) + u)
    ensures forall i | 0 <= i < |xs[1..]| ::
      p(Show(xs[1..][i]) + (PreShow(xs[1..][i + 1..]) + u)) == Success(xs[1..][i], PreShow(xs[1..][i + 1..]) + u)
  {
    forall i | 0 <= i < |xs[1..]|
      ensures p(Show(xs[1..][i]) + (PreShow(xs[1..][i + 1..]) + u)) == Success(xs[1..][i], PreShow(xs[1..][i + 1..]) + u)
    {
      assert xs[1..][i] == xs[i + 1];
      assert xs[1..][i + 1..] == xs[i + 2..];
    }
  }

  /** `preDelimitedSeq(p)` reads back the operands when `p` reads each one
      up to the text after it and no operand follows the last. */
  lemma {:induction false} MunchOperands(p: Parser<Expr>, xs: seq<Expr>, u: string)
    requires Consumes(p)
    requires forall i | 0 <= i < |xs| ::
      p(Show(xs[i]) + (PreShow(xs[i + 1..]) + u)) == Success(xs[i], PreShow(xs[i + 1..]) + u)
    requires Operand(p)(u).Failure?
    ensures MunchFrom(Operand(p), PreShow(xs) + u).val == xs
    ensures MunchFrom(Operand(p), PreShow(xs) + u).rest == u
    decreases |xs|
  {
    if |xs| == 0 {
      assert PreShow(xs) + u == u;
      MunchStep(Operand(p), u);
    } else {
      OperandsTail(p, xs, u);
      MunchOperands(p, xs[1..], u);
      MunchFirstOperand(p, xs, u);
    }
  }

  /** The first operand, read before the munch of the others. */
  lemma MunchFirstOperand(p: Parser<Expr>, xs: seq<Expr>, u: string)
    requires Consumes(p) && 0 < |xs|
    requires p(Show(xs[0]) + (PreShow(xs[1..]) + u)) == Success(xs[0], PreShow(xs[1..]) + u)
    requires MunchFrom(Operand(p), PreShow(xs[1..]) + u).val == xs[1..]
    requires MunchFrom(Operand(p), PreShow(xs[1..]) + u).rest == u
    ensures MunchFrom(Operand(p), PreShow(xs) + u).val == xs
    ensures MunchFrom(Operand(p), PreShow(xs) + u).rest == u
  {
    var x := Show(xs[0]);
    var more := PreShow(xs[1..]) + u;
    PreShowThen(xs, u);
    ShowStarts(xs[0]);
    OperandReads(p, x, more, xs[0], xs[1..], u);
    HeadTail(xs);
  }

  /** The head of a list reads `(`, a run of spaces `a` and the operator
      after it. */
  lemma ListHeadReads(a: string, op: char, tail: string)
    requires Spaces(a)
    requires op == '+' || op == '*'
    ensures ListHead("(" + (a + ([op] + tail))) == Success(op, tail)
  {
    var s := "(" + (a + ([op] + tail));
    AfterFirst('(', a + ([op] + tail));
    AfterFirst(op, tail);
    WsStopsAtNonSpace(a, [op] + tail);
    FirstSecondRun(Char('('), Ws, s);
    FirstSecondRun(Second(Char('('), Ws), Operator, s);
  }

  /** A list whose operands `preDelimitedSeq` reads as `xs`, leaving `u`,
      after which `_` leaves `)` and `t`, reads as `op`'s node over `xs`. */
  lemma ListSteps(p: Parser<Expr>, a: string, op: char, xs: seq<Expr>, body: string, u: string, t: string)
    requires Spaces(a)
    requires op == '+' || op == '*'
    requires Consumes(p)
    requires MunchFrom(Operand(p), body).val == xs && MunchFrom(Operand(p), body).rest == u
    requires Ws(u) == Success((), ")" + t)
    ensures List(p)("(" + (a + ([op] + body))) == Success(OpTable(op, xs), t)
  {
    var s := "(" + (a + ([op] + body));
    ListHeadReads(a, op, body);
    assert PreDelimitedSeq(p)(body) == Success(xs, u);
    MapRuns(PreDelimitedSeq(p), Build(op), body);
    assert Operands(p)(op)(body) == Success(OpTable(op, xs), u);
    var inner := Then(ListHead, Operands(p));
    ThenRuns(ListHead, Operands(p), s);
    assert inner(s) == Success(OpTable(op, xs), u);
    FirstSecondRun(inner, Ws, s);
    FirstSecondRun(First(inner, Ws), Char(')'), s);
    assert (")" + t)[1..] == t;
  }

  /** The printed list, regrouped the way the parser reads it. */
  lemma ListText(op: char, body: string, t: string)
    ensures ShowList(op, body) + t == "(" + ("" + ([op] + ((" " + body) + (")" + t))))
  {
  }

  /** `(+ )` and `(* )`: the list without operands. */
  lemma EmptyListReads(p: Parser<Expr>, op: char, t: string)
    requires op == '+' || op == '*'
    requires Consumes(p)
    requires p(")" + t).Failure?
    ensures List(p)(ShowList(op, ShowSeq([])) + t) == Success(OpTable(op, []), t)
  {
    var u := " " + ")" + t;
    EmptyListText(op, t);
    NoOperandBeforeClose(p, t);
    SpaceBeforeClose(t);
    ListSteps(p, "", op, [], u, u, t);
  }

  lemma EmptyListText(op: char, t: string)
    ensures ShowList(op, ShowSeq([])) + t == "(" + ("" + ([op] + (" " + ")" + t)))
  {
  }

  /** `preDelimitedSeq(p)` reads nothing from ` )`. */
  lemma NoOperandBeforeClose(p: Parser<Expr>, t: string)
    requires Consumes(p)
    requires p(")" + t).Failure?
    ensures MunchFrom(Operand(p), " " + ")" + t).val == []
    ensures MunchFrom(Operand(p), " " + ")" + t).rest == " " + ")" + t
  {
    var u := " " + ")" + t;
    OneSpace(")", t);
    FirstSecondRun(Ws1, p, u);
    MunchStep(Operand(p), u);
  }

  lemma SpaceBeforeClose(t: string)
    ensures Ws(" " + ")" + t) == Success((), ")" + t)
  {
    WsStopsAtNonSpace(" ", ")" + t);
    assert " " + ")" + t == " " + (")" + t);
  }

  /** No operand starts at a `)`. */
  lemma NoOperandAtClose(p: Parser<Expr>, t: string)
    requires Consumes(p)
    ensures Operand(p)(")" + t).Failure?
  {
    FirstSecondRun(Ws1, p, ")" + t);
  }

  /** A list with operands, once `preDelimitedSeq(p)` reads them. */
  lemma NonEmptyListReads(p: Parser<Expr>, op: char, xs: seq<Expr>, t: string)
    requires op == '+' || op == '*'
    requires Consumes(p) && 0 < |xs|
    requires MunchFrom(Operand(p), PreShow(xs) + (")" + t)).val == xs
    requires MunchFrom(Operand(p), PreShow(xs) + (")" + t)).rest == ")" + t
    ensures List(p)(ShowList(op, ShowSeq(xs)) + t) == Success(OpTable(op, xs), t)
  {
    ShowSeqIsPreShow(xs);
    ListText(op, ShowSeq(xs), t);
    ListSteps(p, "", op, xs, PreShow(xs) + (")" + t), ")" + t, t);
  }

  /** `list(p)` reads back the printed list when `p` reads each operand up
      to the text after it, and fails on `)`. */
  lemma ListReads(p: Parser<Expr>, op: char, xs: seq<Expr>, t: string)
    requires op == '+' || op == '*'
    requires Consumes(p)
    requires forall i | 0 <= i < |xs| ::
      p(Show(xs[i]) + (PreShow(xs[i + 1..]) + (")" + t))) == Success(xs[i], PreShow(xs[i + 1..]) + (")" + t))
    requires p(")" + t).Failure?
    ensures List(p)(ShowList(op, ShowSeq(xs)) + t) == Success(OpTable(op, xs), t)
  {
    if |xs| == 0 {
      EmptyListReads(p, op, t);
    } else {
      NoOperandAtClose(p, t);
      MunchOperands(p, xs, ")" + t);
      NonEmptyListReads(p, op, xs, t);
    }
  }

  /** `list(p)` fails on a text that does not start with `(`. */
  lemma ListNeedsParen(p: Parser<Expr>, s: string)
    requires Consumes(p)
    requires |s| == 0 || s[0] != '('
    ensures List(p)(s).Failure?
  {
    FirstSecondRun(Char('('), Ws, s);
    FirstSecondRun(Second(Char('('), Ws), Operator, s);
    var inner := Then(ListHead, Operands(p));
    ThenRuns(ListHead, Operands(p), s);
    FirstSecondRun(inner, Ws, s);
    FirstSecondRun(First(inner, Ws), Char(')'), s);
  }

  /** `expr` on a text that starts with `(` is `list(expr)` on it, and
      reports both alternatives' errors when that fails. */
  lemma ExprOnParen(s: string)
    requires 0 < |s| && s[0] == '('
    ensures NatExpr(s).Failure?
    ensures List(Below(s))(s).Success? ==> ParseExpr(s) == List(Below(s))(s)
    ensures List(Below(s))(s).Failure? ==>
      ParseExpr(s) == Failure(Alternatives([NatExpr(s).message, List(Below(s))(s).message]))
  {
    Numbers.NatReads(s);
    MapRuns(Numbers.Nat, n => Nat(n), s);
    OrRuns(NatExpr, List(Below(s)), s);
  }

  /** A text that starts with neither a digit nor `(` is not an expression. */
  lemma ExprRejects(s: string)
    requires |s| == 0 || (s[0] != '(' && !('0' <= s[0] <= '9'))
    ensures ParseExpr(s).Failure?
  {
    Numbers.NatReads(s);
    MapRuns(Numbers.Nat, n => Nat(n), s);
    ListNeedsParen(Below(s), s);
    OrRuns(NatExpr, List(Below(s)), s);
  }

  /** The `i`-th operand and the ones after it, in the printed list. */
  lemma OperandText(xs: seq<Expr>, i: nat)
    requires i < |xs|
    ensures PreShow(xs[i..]) == " " + Show(xs[i]) + PreShow(xs[i + 1..])
  {
    assert xs[i..][0] == xs[i];
    assert xs[i..][1..] == xs[i + 1..];
  }

  /** The list case of the round trip, given the round trip of every
      operand. */
  lemma ListStep(op: char, xs: seq<Expr>, t: string)
    requires op == '+' || op == '*'
    requires forall i | 0 <= i < |xs| ::
      ParseExpr(Show(xs[i]) + (PreShow(xs[i + 1..]) + (")" + t))) == Success(xs[i], PreShow(xs[i + 1..]) + (")" + t))
    ensures ParseExpr(ShowList(op, ShowSeq(xs)) + t) == Success(OpTable(op, xs), t)
  {
    var s := ShowList(op, ShowSeq(xs)) + t;
    var p := Below(s);
    forall i | 0 <= i < |xs|
      ensures p(Show(xs[i]) + (PreShow(xs[i + 1..]) + (")" + t))) == Success(xs[i], PreShow(xs[i + 1..]) + (")" + t))
    {
      OperandText(xs, i);
      PreShowDrop(xs, i);
      ShowSeqIsPreShow(xs);
    }
    ExprRejects(")" + t);
    ListReads(p, op, xs, t);
    ExprOnParen(s);
  }

  /** `expr` reads back the printed form of every expression, stopping
      where it ends, whenever what follows cannot extend a trailing
      numeral. */
  lemma {:induction false} ExprRoundTrip(e: Expr, t: string)
    requires |t| == 0 || !('0' <= t[0] <= '9')
    ensures ParseExpr(Show(e) + t) == Success(e, t)
  {
    match e
    case Nat(n) =>
      var s := Show(e) + t;
      Numbers.NatRoundTrip(n, t);
      MapRuns(Numbers.Nat, n => Nat(n), s);
      OrRuns(NatExpr, List(Below(s)), s);
    case Add(xs) =>
      OperandsRoundTrip(xs, t);
      ListStep('+', xs, t);
    case Mul(xs) =>
      OperandsRoundTrip(xs, t);
      ListStep('*', xs, t);
  }

  /** The round trip of every operand of a list, each followed by the rest
      of the list. */
  lemma {:induction false} OperandsRoundTrip(xs: seq<Expr>, t: string)
    ensures forall i | 0 <= i < |xs| ::
      ParseExpr(Show(xs[i]) + (PreShow(xs[i + 1..]) + (")" + t))) == Success(xs[i], PreShow(xs[i + 1..]) + (")" + t))
    decreases xs
  {
    forall i | 0 <= i < |xs|
      ensures ParseExpr(Show(xs[i]) + (PreShow(xs[i + 1..]) + (")" + t))) == Success(xs[i], PreShow(xs[i + 1..]) + (")" + t))
    {
      var after := PreShow(xs[i + 1..]) + (")" + t);
      assert after[0] == ' ' || after[0] == ')';
      ExprRoundTrip(xs[i], after);
    }
  }

  /** Distinct expressions print differently. */
  lemma ShowInjective(e1: Expr, e2: Expr)
    requires Show(e1) == Show(e2)
    ensures e1 == e2
  {
    ExprRoundTrip(e1, "");
    ExprRoundTrip(e2, "");
  }

  // ===== Whole programs =====

  /** `program` reads a printed expression with any spaces around it, and
      nothing may follow. */
  lemma ProgramRoundTrip(e: Expr, before: string, after: string)
    requires Spaces(before) && Spaces(after)
    ensures Program(before + Show(e) + after) == Success(e, "")
  {
    var s := before + Show(e) + after;
    ShowStarts(e);
    assert s == before + (Show(e) + after);
    WsStopsAtNonSpace(before, Show(e) + after);
    ExprRoundTrip(e, after);
    WsStopsAtNonSpace(after, "");
    assert after + "" == after;
    PaddedRuns(ParseExpr, s, Show(e) + after, e, after, "");
  }

  /** `program` rejects anything after the expression but spaces. */
  lemma ProgramNeedsEnd(e: Expr, t: string)
    requires 0 < |t| && t[0] != ' ' && !('0' <= t[0] <= '9')
    ensures Program(Show(e) + t).Failure?
  {
    ShowStarts(e);
    ExprRoundTrip(e, t);
    ProgramRejectsRest(Show(e) + t, e, t);
  }

  /** `program` on an expression that leaves a text that does not start
      with a space, and is not empty. */
  lemma ProgramRejectsRest(s: string, e: Expr, t: string)
    requires 0 < |s| && s[0] != ' ' && ParseExpr(s) == Success(e, t)
    requires 0 < |t| && t[0] != ' '
    ensures Program(s).Failure?
  {
    WsNone(s);
    WsNone(t);
    PaddedRuns(ParseExpr, s, s, e, t, t);
  }

  // ===== Evaluation facts =====

  /** The sum and product of two values. */
  lemma SumProdPair(a: nat, b: nat)
    ensures Sum([a, b]) == a + b
    ensures Prod([a, b]) == a * b
  {
    assert [a, b][1..] == [b];
    assert [b][1..] == [];
    assert Sum([a, b]) == FoldLeft(Plus, Plus(0, a), [b]) == FoldLeft(Plus, Plus(Plus(0, a), b), []);
    assert Prod([a, b]) == FoldLeft(Times, Times(1, a), [b]) == FoldLeft(Times, Times(Times(1, a), b), []);
  }

  /** A binary expression as an n-ary one: each operator node gets its two
      operands as a list. */
  function Widen(e: BinaryArith.BinExpr): Expr
  {
    match e
    case Nat(n) => Nat(n)
    case Add(l, r) => Add([Widen(l), Widen(r)])
    case Mul(l, r) => Mul([Widen(l), Widen(r)])
  }

  /** The n-ary printer and evaluator agree with the binary ones on binary
      expressions, so the n-ary grammar reads every binary expression. */
  lemma {:induction false} WidenAgrees(e: BinaryArith.BinExpr)
    ensures Eval(Widen(e)) == BinaryArith.Eval(e)
    ensures Show(Widen(e)) == BinaryArith.Show(e)
  {
    match e
    case Nat(n) =>
    case Add(l, r) =>
      WidenAgrees(l);
      WidenAgrees(r);
      WidenNode('+', l, r);
    case Mul(l, r) =>
      WidenAgrees(l);
      WidenAgrees(r);
      WidenNode('*', l, r);
  }

  /** The n-ary grammar reads every printed binary expression as its
      widening. */
  lemma WidenParses(e: BinaryArith.BinExpr)
    ensures ParseExpr(BinaryArith.Show(e)) == Success(Widen(e), "")
  {
    WidenAgrees(e);
    assert Show(Widen(e)) + "" == Show(Widen(e));
    ExprRoundTrip(Widen(e), "");
  }

  /** The operator-node case of `WidenAgrees`. */
  lemma WidenNode(op: char, l: BinaryArith.BinExpr, r: BinaryArith.BinExpr)
    requires op == '+' || op == '*'
    requires Eval(Widen(l)) == BinaryArith.Eval(l) && Eval(Widen(r)) == BinaryArith.Eval(r)
    requires Show(Widen(l)) == BinaryArith.Show(l) && Show(Widen(r)) == BinaryArith.Show(r)
    ensures Eval(Widen(BinaryArith.OpTable(op, l, r))) == BinaryArith.Eval(BinaryArith.OpTable(op, l, r))
    ensures Show(Widen(BinaryArith.OpTable(op, l, r))) == BinaryArith.Show(BinaryArith.OpTable(op, l, r))
  {
    var a, b := Widen(l), Widen(r);
    SumProdPair(Eval(a), Eval(b));
    EvalPair(a, b);
    ShowPair(a, b);
    ShowListPair(op, Show(a), Show(b));
  }

  /** The n-ary list of two operands prints as the binary node. */
  lemma ShowListPair(op: char, x: string, y: string)
    ensures ShowList(op, x + " " + y) == BinaryArith.ShowOp(op, x, y)
  {
  }

  lemma EvalPair(a: Expr, b: Expr)
    ensures EvalAll([a, b]) == [Eval(a), Eval(b)]
  {
    assert [a, b][1..] == [b];
    assert [b][1..] == [];
  }

  lemma ShowPair(a: Expr, b: Expr)
    ensures ShowSeq([a, b]) == Show(a) + " " + Show(b)
  {
    assert [a, b][1..] == [b];
  }

  // ===== Behaviour the grammar's comments describe =====

  lemma Exp3Facts(x: string)
    requires x == "(* (+ 1 2) 3 4)"
    ensures Eval(Exp3) == 36
    ensures Show(Exp3) == x
  {
    Exp3Value();
    Exp3Text(x);
  }

  lemma Exp3Value()
    ensures Eval(Exp3) == 36
  {
    var a := Add([Nat(1), Nat(2)]);
    SumProdPair(1, 2);
    EvalPair(Nat(1), Nat(2));
    EvalTriple(a, Nat(3), Nat(4));
    ProdTriple(3, 3, 4);
  }

  lemma Exp3Text(x: string)
    requires x == "(* (+ 1 2) 3 4)"
    ensures Show(Exp3) == x
  {
    AddOneTwoText("(+ 1 2)");
    assert Numbers.ShowNat(3) == "3" && Numbers.ShowNat(4) == "4";
    ShowTriple(Add([Nat(1), Nat(2)]), Nat(3), Nat(4));
    assert ShowList('*', "(+ 1 2)" + " " + "3" + " " + "4") == x;
  }

  lemma EvalTriple(a: Expr, b: Expr, c: Expr)
    ensures EvalAll([a, b, c]) == [Eval(a), Eval(b), Eval(c)]
  {
    assert [a, b, c][1..] == [b, c];
    EvalPair(b, c);
  }

  lemma ShowTriple(a: Expr, b: Expr, c: Expr)
    ensures ShowSeq([a, b, c]) == Show(a) + " " + Show(b) + " " + Show(c)
  {
    assert [a, b, c][1..] == [b, c];
    ShowPair(b, c);
  }

  lemma ProdTriple(a: nat, b: nat, c: nat)
    ensures Prod([a, b, c]) == a * b * c
  {
    assert [a, b, c][1..] == [b, c];
    assert [b, c][1..] == [c];
    assert [c][1..] == [];
    assert Prod([a, b, c]) == FoldLeft(Times, Times(1, a), [b, c])
      == FoldLeft(Times, Times(Times(1, a), b), [c])
      == FoldLeft(Times, Times(Times(Times(1, a), b), c), []);
  }

  lemma NatExprConsumes()
    ensures Consumes(NatExpr)
  {
    forall s | NatExpr(s).Success? ensures IsSuffix(NatExpr(s).rest, s) {
      MapRuns(Numbers.Nat, n => Nat(n), s);
      Numbers.NatStopsAtNonDigit(s);
    }
  }

  lemma EmptyListExample(s: string)
    requires s == "(+)xx"
    ensures List(NatExpr)(s) == Success(Add([]), "xx")
  {
    NatExprConsumes();
    assert s == "(" + ("" + (['+'] + ")xx"));
    NoOperandAtClose(NatExpr, "xx");
    assert ")xx" == ")" + "xx";
    assert Ws(")xx") == Success((), ")xx");
    ListSteps(NatExpr, "", '+', [], ")xx", ")xx", "xx");
  }

  /** A list needs its operator right after `(` and the spaces after it. */
  lemma ListNeedsOperator(p: Parser<Expr>, s: string)
    requires Consumes(p)
    requires 0 < |s| && s[0] == '(' && Operator(Ws(s[1..]).rest).Failure?
    ensures List(p)(s).Failure?
  {
    FirstSecondRun(Char('('), Ws, s);
    FirstSecondRun(Second(Char('('), Ws), Operator, s);
    assert ListHead(s).Failure?;
    var inner := Then(ListHead, Operands(p));
    ThenRuns(ListHead, Operands(p), s);
    FirstSecondRun(inner, Ws, s);
    FirstSecondRun(First(inner, Ws), Char(')'), s);
  }

  lemma NoParenExample(u: string)
    requires u == "xx"
    ensures List(NatExpr)(u).Failure?
  {
    NatExprConsumes();
    ListNeedsParen(NatExpr, u);
  }

  lemma NoOperatorExample(t: string)
    requires t == "()xx"
    ensures List(NatExpr)(t).Failure?
  {
    NatExprConsumes();
    assert t[1..] == ")xx";
    assert Ws(")xx") == Success((), ")xx");
    ListNeedsOperator(NatExpr, t);
  }

  lemma ProgramExample(before: string, x: string, after: string)
    requires before == "  " && x == "(+ 1 2)" && after == " "
    ensures Program(before + x + after) == Success(Add([Nat(1), Nat(2)]), "")
  {
    AddOneTwoText(x);
    ProgramRoundTrip(Add([Nat(1), Nat(2)]), before, after);
  }

  /** `(+ 1 2)` is the printed form of the sum of 1 and 2. */
  lemma AddOneTwoText(x: string)
    requires x == "(+ 1 2)"
    ensures Show(Add([Nat(1), Nat(2)])) == x
  {
    assert Numbers.ShowNat(1) == "1" && Numbers.ShowNat(2) == "2";
    ShowPair(Nat(1), Nat(2));
    assert ShowList('+', "1 2") == x;
  }

  // ===== Lists written with more than one space =====

  /** A numeral operand after a nonempty run of spaces. */
  lemma NumeralOperand(b: string, n: nat, more: string)
    requires Spaces(b) && 0 < |b|
    requires |more| == 0 || !('0' <= more[0] <= '9')
    ensures Operand(NatExpr)(b + (Numbers.ShowNat(n) + more)) == Success(Nat(n), more)
  {
    NatExprConsumes();
    var x := Numbers.ShowNat(n);
    assert x[0] != ' ';
    Ws1Reads(b, x, more);
    Numbers.NatRoundTrip(n, more);
    MapRuns(Numbers.Nat, n => Nat(n), x + more);
    FirstSecondRun(Ws1, NatExpr, b + (x + more));
  }

  /** After a run of spaces, `)` starts no numeral operand. */
  lemma NoNumeralOperand(b: string, t: string)
    requires Spaces(b) && 0 < |b|
    ensures Operand(NatExpr)(b + (")" + t)).Failure?
  {
    NatExprConsumes();
    Ws1Reads(b, ")", t);
    Numbers.NatReads(")" + t);
    MapRuns(Numbers.Nat, n => Nat(n), ")" + t);
    FirstSecondRun(Ws1, NatExpr, b + (")" + t));
  }

  /** `list(natExpr)` on `(  + 1 2  34  )xx`: runs of spaces after `(`,
      between the operands and before `)` are all skipped. */
  lemma PaddedListExample(s: string)
    requires s == "(  + 1 2  34  )xx"
    ensures List(NatExpr)(s) == Success(Add([Nat(1), Nat(2), Nat(34)]), "xx")
  {
    SmallNumerals("1", "2", "34");
    PaddedListText(s, "1", "2", "34");
    PaddedListReads(s, "1", "2", "34");
  }

  lemma SmallNumerals(n1: string, n2: string, n3: string)
    requires n1 == "1" && n2 == "2" && n3 == "34"
    ensures Numbers.ShowNat(1) == n1 && Numbers.ShowNat(2) == n2 && Numbers.ShowNat(34) == n3
  {
  }

  lemma PaddedListText(s: string, n1: string, n2: string, n3: string)
    requires s == "(  + 1 2  34  )xx"
    requires n1 == "1" && n2 == "2" && n3 == "34"
    ensures s == "(" + ("  " + (['+'] + (" " + (n1 + (" " + (n2 + ("  " + (n3 + ("  " + (")" + "xx"))))))))))
  {
  }

  lemma PaddedListReads(s: string, n1: string, n2: string, n3: string)
    requires n1 == Numbers.ShowNat(1) && n2 == Numbers.ShowNat(2) && n3 == Numbers.ShowNat(34)
    requires s == "(" + ("  " + (['+'] + (" " + (n1 + (" " + (n2 + ("  " + (n3 + ("  " + (")" + "xx"))))))))))
    ensures List(NatExpr)(s) == Success(Add([Nat(1), Nat(2), Nat(34)]), "xx")
  {
    assert Blanks(1) == " " && Blanks(2) == "  ";
    ThreeNumeralList(2, '+', 1, 1, 1, 2, 2, 34, 2, "xx");
  }

  /** `list(natExpr)` reads three numerals with any runs of spaces the
      grammar allows around them: `a` spaces after `(`, `k1`, `k2`, `k3`
      before the numerals and `d` before `)`. */
  lemma ThreeNumeralList(a: nat, op: char, k1: nat, m1: nat, k2: nat, m2: nat, k3: nat, m3: nat, d: nat, t: string)
    requires op == '+' || op == '*'
    requires 0 < k1 && 0 < k2 && 0 < k3 && 0 < d
    ensures List(NatExpr)("(" + (Blanks(a) + ([op] + (Blanks(k1) + (Numbers.ShowNat(m1) + (Blanks(k2) + (Numbers.ShowNat(m2)
              + (Blanks(k3) + (Numbers.ShowNat(m3) + (Blanks(d) + (")" + t))))))))))) == Success(OpTable(op, [Nat(m1), Nat(m2), Nat(m3)]), t)
  {
    NatExprConsumes();
    var u := Blanks(d) + (")" + t);
    var body := Blanks(k1) + (Numbers.ShowNat(m1) + (Blanks(k2) + (Numbers.ShowNat(m2) + (Blanks(k3) + (Numbers.ShowNat(m3) + u)))));
    ThreeNumerals(k1, m1, k2, m2, k3, m3, d, t);
    BlanksAreSpaces(d);
    WsStopsAtNonSpace(Blanks(d), ")" + t);
    BlanksAreSpaces(a);
    ListSteps(NatExpr, Blanks(a), op, [Nat(m1), Nat(m2), Nat(m3)], body, u, t);
  }

  /** `preDelimitedSeq(natExpr)` reads three numerals, each after a
      nonempty run of spaces, and stops at the spaces before `)`. */
  lemma ThreeNumerals(k1: nat, m1: nat, k2: nat, m2: nat, k3: nat, m3: nat, d: nat, t: string)
    requires 0 < k1 && 0 < k2 && 0 < k3 && 0 < d
    ensures MunchFrom(Operand(NatExpr), Blanks(k1) + (Numbers.ShowNat(m1) + (Blanks(k2) + (Numbers.ShowNat(m2)
              + (Blanks(k3) + (Numbers.ShowNat(m3) + (Blanks(d) + (")" + t)))))))).val == [Nat(m1), Nat(m2), Nat(m3)]
    ensures MunchFrom(Operand(NatExpr), Blanks(k1) + (Numbers.ShowNat(m1) + (Blanks(k2) + (Numbers.ShowNat(m2)
              + (Blanks(k3) + (Numbers.ShowNat(m3) + (Blanks(d) + (")" + t)))))))).rest == Blanks(d) + (")" + t)
  {
    NatExprConsumes();
    var u := Blanks(d) + (")" + t);
    var r2 := Blanks(k2) + (Numbers.ShowNat(m2) + (Blanks(k3) + (Numbers.ShowNat(m3) + u)));
    TwoNumerals(k2, m2, k3, m3, d, t);
    NumeralCons(k1, m1, r2, [Nat(m2), Nat(m3)], u);
    ConsTwo(Nat(m1), Nat(m2), Nat(m3));
  }

  lemma ConsTwo(a: Expr, b: Expr, c: Expr)
    ensures [a] + [b, c] == [a, b, c]
  {
  }

  /** `preDelimitedSeq(natExpr)` reads two numerals, each after a nonempty
      run of spaces, and stops at the spaces before `)`. */
  lemma TwoNumerals(k2: nat, m2: nat, k3: nat, m3: nat, d: nat, t: string)
    requires 0 < k2 && 0 < k3 && 0 < d
    ensures MunchFrom(Operand(NatExpr), Blanks(k2) + (Numbers.ShowNat(m2)
              + (Blanks(k3) + (Numbers.ShowNat(m3) + (Blanks(d) + (")" + t)))))).val == [Nat(m2), Nat(m3)]
    ensures MunchFrom(Operand(NatExpr), Blanks(k2) + (Numbers.ShowNat(m2)
              + (Blanks(k3) + (Numbers.ShowNat(m3) + (Blanks(d) + (")" + t)))))).rest == Blanks(d) + (")" + t)
  {
    NatExprConsumes();
    var u := Blanks(d) + (")" + t);
    OneNumeral(k3, m3, d, t);
    NumeralCons(k2, m2, Blanks(k3) + (Numbers.ShowNat(m3) + u), [Nat(m3)], u);
  }

  /** `preDelimitedSeq(natExpr)` reads one numeral after a nonempty run of
      spaces, and stops at the spaces before `)`. */
  lemma OneNumeral(k: nat, m: nat, d: nat, t: string)
    requires 0 < k && 0 < d
    ensures MunchFrom(Operand(NatExpr), Blanks(k) + (Numbers.ShowNat(m) + (Blanks(d) + (")" + t)))).val == [Nat(m)]
    ensures MunchFrom(Operand(NatExpr), Blanks(k) + (Numbers.ShowNat(m) + (Blanks(d) + (")" + t)))).rest == Blanks(d) + (")" + t)
  {
    NatExprConsumes();
    var u := Blanks(d) + (")" + t);
    BlanksAreSpaces(d);
    NoNumeralOperand(Blanks(d), t);
    MunchStep(Operand(NatExpr), u);
    NumeralCons(k, m, u, [], u);
  }

  /** `preDelimitedSeq(natExpr)` reads a numeral after a nonempty run of
      spaces, then goes on with what follows, if that starts with a
      space. */
  lemma NumeralCons(k: nat, n: nat, more: string, vs: seq<Expr>, u: string)
    requires 0 < k
    requires 0 < |more| && more[0] == ' '
    requires Consumes(NatExpr)
    requires MunchFrom(Operand(NatExpr), more).val == vs && MunchFrom(Operand(NatExpr), more).rest == u
    ensures MunchFrom(Operand(NatExpr), Blanks(k) + (Numbers.ShowNat(n) + more)).val == [Nat(n)] + vs
    ensures MunchFrom(Operand(NatExpr), Blanks(k) + (Numbers.ShowNat(n) + more)).rest == u
  {
    BlanksAreSpaces(k);
    NumeralOperand(Blanks(k), n, more);
    MunchCons(Operand(NatExpr), Blanks(k) + (Numbers.ShowNat(n) + more), Nat(n), more, vs, u);
  }

  /** `list(natExpr)` on `(  + )xx`: a list without operands, with spaces
      on both sides of the operator. */
  lemma PaddedEmptyListExample(s: string)
    requires s == "(  + )xx"
    ensures List(NatExpr)(s) == Success(Add([]), "xx")
  {
    NatExprConsumes();
    var u := " " + (")" + "xx");
    assert s == "(" + ("  " + (['+'] + u));
    assert Spaces(" ") && Spaces("  ");
    NoNumeralOperand(" ", "xx");
    MunchStep(Operand(NatExpr), u);
    WsStopsAtNonSpace(" ", ")" + "xx");
    ListSteps(NatExpr, "  ", '+', [], u, u, "xx");
  }
}
