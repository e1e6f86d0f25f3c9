/** Binary arithmetic expressions in prefix notation: numerals, and
    `(+ e1 e2)` / `(* e1 e2)` with spaces around the operands. The AST, its
    printer and evaluator, and the grammar that reads what the printer
    writes. */
module BinaryArith {
  import opened Results
  import opened Core
  import opened CoreLaws
  import opened Combinators
  import opened CombinatorLaws
  import opened Lexical
  import Numbers

  datatype BinExpr = Nat(n: nat) | Add(left: BinExpr, right: BinExpr) | Mul(left: BinExpr, right: BinExpr)

  /** The concrete syntax of an operator node with operand texts `l`, `r`. */
  function ShowOp(op: char, l: string, r: string): string
  {
    "(" + [op] + " " + l + " " + r + ")"
  }

  /** `show`: the prefix notation of `e`. */
  function Show(e: BinExpr): string
  {
    match e
    case Nat(n) => Numbers.ShowNat(n)
    case Add(l, r) => ShowOp('+', Show(l), Show(r))
    case Mul(l, r) => ShowOp('*', Show(l), Show(r))
  }

  /** `Eval`: sums and products of the operands' values. */
  function Eval(e: BinExpr): nat
  {
    match e
    case Nat(n) => n
    case Add(l, r) => Eval(l) + Eval(r)
    case Mul(l, r) => Eval(l) * Eval(r)
  }

  /** `(1 + 2) * 3` */
  const Example0: BinExpr := Mul(Add(Nat(1), Nat(2)), Nat(3))

  /** `opTable`: the node an operator symbol builds. */
  function OpTable(op: char, l: BinExpr, r: BinExpr): (e: BinExpr)
    requires op == '+' || op == '*'
    ensures Eval(e) == if op == '+' then Eval(l) + Eval(r) else Eval(l) * Eval(r)
    ensures Show(e) == ShowOp(op, Show(l), Show(r))
  {
    if op == '+' then Add(l, r) else Mul(l, r)
  }

  // ===== Parsing =====

  /** `natExp`: a numeral, as a leaf. */
  function NatExp(s: string): Result<BinExpr>
  {
    Map(Numbers.Nat, n => Nat(n))(s)
  }

  /** The tail of `opExp` after the second operand: `_` then `)`, keeping
      the node `v` built so far. */
  function CloseFrom(v: BinExpr, s: string): (r: Result<BinExpr>)
    ensures r.Success? ==> IsSuffix(r.rest, s) && |r.rest| < |s|
  {
    var ws := Ws(s);
    var close := Char(')')(ws.rest);
    if close.Failure? then Propagate(close) else
    SuffixOfDrop(s, LeadingCount(s, ' '));
    SuffixOfDrop(ws.rest, 1);
    SuffixTransitive(close.rest, ws.rest, s);
    Success(v, close.rest)
  }

  /** The middle of `opExp` after the operator `op`: `$_`, `e`, `$_`, `e`,
      then the tail, building `op`'s node over the two operands. */
  function OperandsFrom(e: Parser<BinExpr>, op: char, s: string): (r: Result<BinExpr>)
    requires op == '+' || op == '*'
    ensures Consumes(e) && r.Success? ==> IsSuffix(r.rest, s) && |r.rest| < |s|
  {
    var ws1 := Ws1(s);
    if ws1.Failure? then Propagate(ws1) else
    var e1 := e(ws1.rest);
    if e1.Failure? then Propagate(e1) else
    var ws2 := Ws1(e1.rest);
    if ws2.Failure? then Propagate(ws2) else
    var e2 := e(ws2.rest);
    if e2.Failure? then Propagate(e2) else
    var r := CloseFrom(OpTable(op, e1.val, e2.val), e2.rest);
    assert Consumes(e) && r.Success? ==> IsSuffix(r.rest, s) && |r.rest| < |s| by {
      if Consumes(e) && r.Success? {
        SuffixOfDrop(s, LeadingCount(s, ' '));
        SuffixTransitive(e1.rest, ws1.rest, s);
        SuffixOfDrop(e1.rest, LeadingCount(e1.rest, ' '));
        SuffixTransitive(ws2.rest, e1.rest, s);
        SuffixTransitive(e2.rest, ws2.rest, s);
        SuffixTransitive(r.rest, e2.rest, s);
      }
    }
    r
  }

  /** `opExp` over the operand parser `e`: the nine parsers `(`, `_`,
      operator, `$_`, `e`, `$_`, `e`, `_`, `)` run in sequence; the first
      failure is the result, and otherwise the operator's node over the two
      operands, with the input after `)`. */
  function OpExpFrom(e: Parser<BinExpr>, s: string): (r: Result<BinExpr>)
    ensures Consumes(e) && r.Success? ==> IsSuffix(r.rest, s) && |r.rest| < |s|
  {
    var open := Char('(')(s);
    if open.Failure? then Propagate(open) else
    var ws0 := Ws(open.rest);
    var op := Operator(ws0.rest);
    if op.Failure? then Propagate(op) else
    var r := OperandsFrom(e, op.val, op.rest);
    assert Consumes(e) && r.Success? ==> IsSuffix(r.rest, s) && |r.rest| < |s| by {
      if Consumes(e) && r.Success? {
        SuffixOfDrop(s, 1);
        SuffixOfDrop(open.rest, LeadingCount(open.rest, ' '));
        SuffixTransitive(ws0.rest, open.rest, s);
        SuffixOfDrop(ws0.rest, 1);
        SuffixTransitive(op.rest, ws0.rest, s);
        SuffixTransitive(r.rest, op.rest, s);
      }
    }
    r
  }

  /** `opExp` as a parser. */
  function OpExp(e: Parser<BinExpr>): Parser<BinExpr>
  {
    s => OpExpFrom(e, s)
  }

  /** `exp`, for the operands of an operator node read from within `s`:
      every such operand is shorter than `s`. */
  function Below(s: string): (r: Parser<BinExpr>)
    ensures Consumes(r)
    decreases |s|, 0
  {
    x => if |x| < |s| then Exp(x) else Failure(Message("expression makes no progress"))
  }

  /** `exp`: a numeral, or else an operator node. */
  function Exp(s: string): (r: Result<BinExpr>)
    ensures r.Success? ==> IsSuffix(r.rest, s) && |r.rest| < |s|
    decreases |s|, 1
  {
    var q := OpExp(Below(s));
    var r := Or(NatExp, q)(s);
    assert r.Success? ==> IsSuffix(r.rest, s) && |r.rest| < |s| by {
      OrRuns(NatExp, q, s);
      if NatExp(s).Success? {
        MapRuns(Numbers.Nat, n => Nat(n), s);
        Numbers.NatStopsAtNonDigit(s);
      } else if r.Success? {
        assert q(s) == OpExpFrom(Below(s), s);
        assert Consumes(Below(s));
      }
    }
    r
  }

  // ===== Reading back what `show` writes =====

  /** A printed expression starts with `(` or with a digit, never with a
      space. */
  lemma ShowStarts(e: BinExpr)
    ensures 0 < |Show(e)|
    ensures Show(e)[0] == '(' || '0' <= Show(e)[0] <= '9'
  {
    match e
    case Nat(n) =>
    case Add(l, r) => assert Show(e)[0] == '(';
    case Mul(l, r) => assert Show(e)[0] == '(';
  }

  /** The tail of `opExp` reads `)` right away. */
  lemma CloseReads(v: BinExpr, t: string)
    ensures CloseFrom(v, ")" + t) == Success(v, t)
  {
    assert (")" + t)[1..] == t;
  }

  /** The middle of `opExp` reads ` x1 x2)` when `e` reads each operand
      text up to the character after it. */
  lemma OperandsReads(e: Parser<BinExpr>, op: char, x1: string, x2: string, v1: BinExpr, v2: BinExpr, t: string)
    requires op == '+' || op == '*'
    requires 0 < |x1| && x1[0] != ' ' && 0 < |x2| && x2[0] != ' '
    requires e(x1 + (" " + x2 + (")" + t))) == Success(v1, " " + x2 + (")" + t))
    requires e(x2 + (")" + t)) == Success(v2, ")" + t)
    ensures OperandsFrom(e, op, " " + x1 + (" " + x2 + (")" + t))) == Success(OpTable(op, v1, v2), t)
  {
    OneSpace(x1, " " + x2 + (")" + t));
    OneSpace(x2, ")" + t);
    CloseReads(OpTable(op, v1, v2), t);
  }

  /** The head of `opExp` reads `(` and the operator right after it. */
  lemma OpenReads(e: Parser<BinExpr>, op: char, tail: string)
    requires op == '+' || op == '*'
    ensures OpExpFrom(e, "(" + ([op] + tail)) == OperandsFrom(e, op, tail)
  {
    AfterFirst('(', [op] + tail);
    AfterFirst(op, tail);
    WsNone([op] + tail);
  }

  /** The text of an operator node as the grammar allows it to be written:
      `a` after `(`, `b` after the operator, `c` between the operands and
      `d` before `)` are runs of spaces, `b` and `c` nonempty. */
  function PaddedOp(a: string, op: char, b: string, x1: string, c: string, x2: string, d: string): string
  {
    "(" + (a + ([op] + (b + (x1 + (c + (x2 + (d + ")")))))))
  }

  lemma PaddedOpText(a: string, op: char, b: string, x1: string, c: string, x2: string, d: string, t: string)
    ensures PaddedOp(a, op, b, x1, c, x2, d) + t == "(" + (a + ([op] + (b + (x1 + (c + (x2 + (d + (")" + t))))))))
  {
  }

  /** The tail of `opExp` reads a run of spaces and `)`. */
  lemma CloseReadsPadded(v: BinExpr, d: string, t: string)
    requires Spaces(d)
    ensures CloseFrom(v, d + (")" + t)) == Success(v, t)
  {
    WsStopsAtNonSpace(d, ")" + t);
    AfterFirst(')', t);
  }

  /** The middle of `opExp` reads two operands, each after a nonempty run of
      spaces, and the tail. */
  lemma OperandsReadsPadded(e: Parser<BinExpr>, op: char, b: string, x1: string, c: string, x2: string, d: string,
                            v1: BinExpr, v2: BinExpr, t: string)
    requires op == '+' || op == '*'
    requires Spaces(b) && 0 < |b| && Spaces(c) && 0 < |c| && Spaces(d)
    requires 0 < |x1| && x1[0] != ' ' && 0 < |x2| && x2[0] != ' '
    requires e(x1 + (c + (x2 + (d + (")" + t))))) == Success(v1, c + (x2 + (d + (")" + t))))
    requires e(x2 + (d + (")" + t))) == Success(v2, d + (")" + t))
    ensures OperandsFrom(e, op, b + (x1 + (c + (x2 + (d + (")" + t)))))) == Success(OpTable(op, v1, v2), t)
  {
    Ws1Reads(b, x1, c + (x2 + (d + (")" + t))));
    Ws1Reads(c, x2, d + (")" + t));
    CloseReadsPadded(OpTable(op, v1, v2), d, t);
  }

  /** The head of `opExp` reads `(`, a run of spaces and the operator. */
  lemma OpenReadsPadded(e: Parser<BinExpr>, a: string, op: char, tail: string)
    requires Spaces(a)
    requires op == '+' || op == '*'
    ensures OpExpFrom(e, "(" + (a + ([op] + tail))) == OperandsFrom(e, op, tail)
  {
    AfterFirst('(', a + ([op] + tail));
    WsStopsAtNonSpace(a, [op] + tail);
    AfterFirst(op, tail);
  }

  /** `opExp` reads an operator node with any runs of spaces the grammar
      allows, when `e` reads each operand text up to the spaces after it. */
  lemma OpExpReads(e: Parser<BinExpr>, a: string, op: char, b: string, x1: string, c: string, x2: string, d: string,
                   v1: BinExpr, v2: BinExpr, t: string)
    requires op == '+' || op == '*'
    requires Spaces(a) && Spaces(b) && 0 < |b| && Spaces(c) && 0 < |c| && Spaces(d)
    requires 0 < |x1| && x1[0] != ' ' && 0 < |x2| && x2[0] != ' '
    requires e(x1 + (c + (x2 + (d + (")" + t))))) == Success(v1, c + (x2 + (d + (")" + t))))
    requires e(x2 + (d + (")" + t))) == Success(v2, d + (")" + t))
    ensures OpExpFrom(e, PaddedOp(a, op, b, x1, c, x2, d) + t) == Success(OpTable(op, v1, v2), t)
  {
    var tail := b + (x1 + (c + (x2 + (d + (")" + t)))));
    PaddedOpText(a, op, b, x1, c, x2, d, t);
    OpenReadsPadded(e, a, op, tail);
    OperandsReadsPadded(e, op, b, x1, c, x2, d, v1, v2, t);
  }

  /** `opExp` fails when no space follows the operator. */
  lemma OpExpNeedsSpace(e: Parser<BinExpr>, a: string, op: char, x: string)
    requires Spaces(a)
    requires op == '+' || op == '*'
    requires |x| == 0 || x[0] != ' '
    ensures OpExpFrom(e, "(" + (a + ([op] + x))).Failure?
  {
    OpenReadsPadded(e, a, op, x);
  }

  /** `opExp` reads the text `ShowOp` writes. */
  lemma ShowOpReads(e: Parser<BinExpr>, op: char, x1: string, x2: string, v1: BinExpr, v2: BinExpr, t: string)
    requires op == '+' || op == '*'
    requires 0 < |x1| && x1[0] != ' ' && 0 < |x2| && x2[0] != ' '
    requires e(x1 + (" " + x2 + (")" + t))) == Success(v1, " " + x2 + (")" + t))
    requires e(x2 + (")" + t)) == Success(v2, ")" + t)
    ensures OpExpFrom(e, ShowOp(op, x1, x2) + t) == Success(OpTable(op, v1, v2), t)
  {
    var tail := " " + x1 + (" " + x2 + (")" + t));
    assert ShowOp(op, x1, x2) + t == "(" + ([op] + tail);
    OpenReads(e, op, tail);
    OperandsReads(e, op, x1, x2, v1, v2, t);
  }

  /** `exp` on a text that starts with `(` is `opExp` on it, and reports
      both alternatives' errors when that fails. */
  lemma ExpOnParen(s: string)
    requires 0 < |s| && s[0] == '('
    ensures NatExp(s).Failure?
    ensures OpExpFrom(Below(s), s).Success? ==> Exp(s) == OpExpFrom(Below(s), s)
    ensures OpExpFrom(Below(s), s).Failure? ==>
      Exp(s) == Failure(Alternatives([NatExp(s).message, OpExpFrom(Below(s), s).message]))
  {
    Numbers.NatReads(s);
    var q := OpExp(Below(s));
    MapRuns(Numbers.Nat, n => Nat(n), s);
    OrRuns(NatExp, q, s);
    assert q(s) == OpExpFrom(Below(s), s);
  }

  /** The operator case of the round trip, given the round trip of both
      operands. */
  lemma OperatorStep(op: char, l: BinExpr, r: BinExpr, t: string)
    requires op == '+' || op == '*'
    requires Exp(Show(l) + (" " + Show(r) + (")" + t))) == Success(l, " " + Show(r) + (")" + t))
    requires Exp(Show(r) + (")" + t)) == Success(r, ")" + t)
    ensures Exp(ShowOp(op, Show(l), Show(r)) + t) == Success(OpTable(op, l, r), t)
  {
    var x1 := Show(l);
    var x2 := Show(r);
    var s := ShowOp(op, x1, x2) + t;
    var afterL := " " + x2 + (")" + t);
    var afterR := ")" + t;
    ShowStarts(l);
    ShowStarts(r);
    assert |x1 + afterL| < |s| && |x2 + afterR| < |s|;
    assert Below(s)(x1 + afterL) == Success(l, afterL);
    assert Below(s)(x2 + afterR) == Success(r, afterR);
    ShowOpReads(Below(s), op, x1, x2, l, r, t);
    assert s[0] == '(';
    ExpOnParen(s);
  }

  /** `exp` reads back the printed form of every expression, stopping where
      it ends, whenever what follows cannot extend a trailing numeral. */
  lemma {:induction false} ExpRoundTrip(e: BinExpr, t: string)
    requires |t| == 0 || !('0' <= t[0] <= '9')
    ensures Exp(Show(e) + t) == Success(e, t)
  {
    match e
    case Nat(n) =>
      var s := Show(e) + t;
      Numbers.NatRoundTrip(n, t);
      MapRuns(Numbers.Nat, n => Nat(n), s);
      OrRuns(NatExp, OpExp(Below(s)), s);
    case Add(l, r) =>
      ExpRoundTrip(l, " " + Show(r) + (")" + t));
      ExpRoundTrip(r, ")" + t);
      OperatorStep('+', l, r, t);
    case Mul(l, r) =>
      ExpRoundTrip(l, " " + Show(r) + (")" + t));
      ExpRoundTrip(r, ")" + t);
      OperatorStep('*', l, r, t);
  }

  /** `exp` reads an operator node written with any spacing the grammar
      allows, once it reads both operand texts. */
  lemma ExpReadsPadded(a: string, op: char, b: string, x1: string, c: string, x2: string, d: string,
                       l: BinExpr, r: BinExpr, t: string)
    requires op == '+' || op == '*'
    requires Spaces(a) && Spaces(b) && 0 < |b| && Spaces(c) && 0 < |c| && Spaces(d)
    requires 0 < |x1| && x1[0] != ' ' && 0 < |x2| && x2[0] != ' '
    requires Exp(x1 + (c + (x2 + (d + (")" + t))))) == Success(l, c + (x2 + (d + (")" + t))))
    requires Exp(x2 + (d + (")" + t))) == Success(r, d + (")" + t))
    ensures Exp(PaddedOp(a, op, b, x1, c, x2, d) + t) == Success(OpTable(op, l, r), t)
  {
    var s := PaddedOp(a, op, b, x1, c, x2, d) + t;
    var after1 := c + (x2 + (d + (")" + t)));
    var after2 := d + (")" + t);
    PaddedOpText(a, op, b, x1, c, x2, d, t);
    assert |x1 + after1| < |s| && |x2 + after2| < |s|;
    assert Below(s)(x1 + after1) == Success(l, after1);
    assert Below(s)(x2 + after2) == Success(r, after2);
    OpExpReads(Below(s), a, op, b, x1, c, x2, d, l, r, t);
    ExpOnParen(s);
  }

  /** `exp` reads back an operator node whose operands are printed
      expressions, written with any spacing the grammar allows. */
  lemma PrintedOperandsPadded(a: string, op: char, b: string, l: BinExpr, c: string, r: BinExpr, d: string, t: string)
    requires op == '+' || op == '*'
    requires Spaces(a) && Spaces(b) && 0 < |b| && Spaces(c) && 0 < |c| && Spaces(d)
    ensures Exp(PaddedOp(a, op, b, Show(l), c, Show(r), d) + t) == Success(OpTable(op, l, r), t)
  {
    var after2 := d + (")" + t);
    var after1 := c + (Show(r) + after2);
    ShowStarts(l);
    ShowStarts(r);
    assert after1[0] == ' ';
    assert after2[0] == ' ' || after2[0] == ')';
    ExpRoundTrip(l, after1);
    ExpRoundTrip(r, after2);
    ExpReadsPadded(a, op, b, Show(l), c, Show(r), d, l, r, t);
  }

  /** `exp` reads back an operator node whose first operand text `x1` it
      reads, and whose second operand is a printed expression, written with
      any spacing the grammar allows. */
  lemma LeftNestedPadded(a: string, op: char, b: string, x1: string, c: string, r: BinExpr, d: string, l: BinExpr, t: string)
    requires op == '+' || op == '*'
    requires Spaces(a) && Spaces(b) && 0 < |b| && Spaces(c) && 0 < |c| && Spaces(d)
    requires 0 < |x1| && x1[0] == '('
    requires Exp(x1 + (c + (Show(r) + (d + (")" + t))))) == Success(l, c + (Show(r) + (d + (")" + t))))
    ensures Exp(PaddedOp(a, op, b, x1, c, Show(r), d) + t) == Success(OpTable(op, l, r), t)
  {
    var after2 := d + (")" + t);
    ShowStarts(r);
    assert after2[0] == ' ' || after2[0] == ')';
    ExpRoundTrip(r, after2);
    ExpReadsPadded(a, op, b, x1, c, Show(r), d, l, r, t);
  }

  /** Distinct expressions print differently. */
  lemma ShowInjective(e1: BinExpr, e2: BinExpr)
    requires Show(e1) == Show(e2)
    ensures e1 == e2
  {
    ExpRoundTrip(e1, "");
    ExpRoundTrip(e2, "");
  }

  /** A text that starts with neither a digit nor `(` is not an expression. */
  lemma ExpRejects(s: string)
    requires |s| == 0 || (s[0] != '(' && !('0' <= s[0] <= '9'))
    ensures Exp(s).Failure?
  {
    Numbers.NatReads(s);
    MapRuns(Numbers.Nat, n => Nat(n), s);
    var q := OpExp(Below(s));
    OrRuns(NatExp, q, s);
    assert q(s) == OpExpFrom(Below(s), s);
  }

  /** An operator must be followed by a space: `(+1 2)` is rejected. */
  lemma UnspacedOperatorExample(s: string)
    requires s == "(+1 2)"
    ensures Exp(s).Failure?
  {
    assert s == "(" + ("" + (['+'] + "1 2)"));
    OpExpNeedsSpace(Below(s), "", '+', "1 2)");
    ExpOnParen(s);
  }

  // ===== The worked examples =====

  lemma Example0Facts(s: string)
    requires s == "(* (+ 1 2) 3)"
    ensures Eval(Example0) == 9
    ensures Show(Example0) == s
  {
    assert Numbers.ShowNat(1) == "1" && Numbers.ShowNat(2) == "2" && Numbers.ShowNat(3) == "3";
    assert Show(Add(Nat(1), Nat(2))) == ShowOp('+', "1", "2") == "(+ 1 2)";
    assert Show(Example0) == ShowOp('*', "(+ 1 2)", "3") == s;
  }

  /** `exp` reads the printed example back. */
  lemma Example0Parses(s: string)
    requires Show(Example0) == s
    ensures Exp(s) == Success(Example0, "")
  {
    ExpReadsPrinted(Example0, s);
  }

  /** `exp` reads a whole printed expression back. */
  lemma ExpReadsPrinted(e: BinExpr, s: string)
    requires Show(e) == s
    ensures Exp(s) == Success(e, "")
  {
    ExpRoundTrip(e, "");
    assert s + "" == s;
  }

  /** `(3 * 4) + (5 + 6)`, the harness's padded expression. */
  const BinExp0: BinExpr := Add(Mul(Nat(3), Nat(4)), Add(Nat(5), Nat(6)))

  /** The harness's padded text, in terms of `PaddedOp`. */
  lemma BinExp0Text(s: string)
    requires s == "(  + ( * 3 4  ) (+ 5 6)  )"
    ensures s == PaddedOp("  ", '+', " ", PaddedOp(" ", '*', " ", "3", " ", "4", "  "), " ", "(+ 5 6)", "  ")
  {
  }

  /** The operands of the harness's expression print as single digits and
      `(+ 5 6)`. */
  lemma BinExp0Operands(n3: string, n4: string, x2: string)
    requires n3 == "3" && n4 == "4" && x2 == "(+ 5 6)"
    ensures Show(Nat(3)) == n3 && Show(Nat(4)) == n4 && Show(Add(Nat(5), Nat(6))) == x2
  {
    assert Numbers.ShowNat(5) == "5" && Numbers.ShowNat(6) == "6";
  }

  /** `exp` reads the harness's padded text to the end. */
  lemma BinExp0Parses(s: string)
    requires s == PaddedOp("  ", '+', " ", PaddedOp(" ", '*', " ", "3", " ", "4", "  "), " ", "(+ 5 6)", "  ")
    ensures Exp(s) == Success(BinExp0, "")
  {
    BinExp0Operands("3", "4", "(+ 5 6)");
    PaddedNestReads(s, Nat(3), Nat(4), Add(Nat(5), Nat(6)));
  }

  /** `exp` reads a product node nested as the first operand of a sum,
      with the spacing of the harness's example. */
  lemma PaddedNestReads(s: string, l: BinExpr, r: BinExpr, m: BinExpr)
    requires s == PaddedOp("  ", '+', " ", PaddedOp(" ", '*', " ", Show(l), " ", Show(r), "  "), " ", Show(m), "  ")
    ensures Exp(s) == Success(Add(Mul(l, r), m), "")
  {
    var x1 := PaddedOp(" ", '*', " ", Show(l), " ", Show(r), "  ");
    PaddedNestThen(x1, l, r, m, "");
    NoTail(s);
  }

  lemma NoTail(s: string)
    ensures s + "" == s
  {
  }

  lemma PaddedNestThen(x1: string, l: BinExpr, r: BinExpr, m: BinExpr, t: string)
    requires x1 == PaddedOp(" ", '*', " ", Show(l), " ", Show(r), "  ")
    ensures Exp(PaddedOp("  ", '+', " ", x1, " ", Show(m), "  ") + t) == Success(Add(Mul(l, r), m), t)
  {
    var t1 := " " + (Show(m) + ("  " + (")" + t)));
    PrintedOperandsPadded(" ", '*', " ", l, " ", r, "  ", t1);
    LeftNestedPadded("  ", '+', " ", x1, " ", m, "  ", OpTable('*', l, r), t);
  }

  /** `show` writes the harness's expected text for the parsed example. */
  lemma BinExp0Shows(s: string)
    requires s == "(+ (* 3 4) (+ 5 6))"
    ensures Show(BinExp0) == s
  {
    BinExp0Operands("3", "4", "(+ 5 6)");
    BinExp0ShowText(ShowOp('*', "3", "4"), "(+ 5 6)", s);
  }

  lemma BinExp0ShowText(x1: string, x2: string, s: string)
    requires x1 == ShowOp('*', "3", "4") && x2 == "(+ 5 6)"
    requires s == "(+ (* 3 4) (+ 5 6))"
    ensures ShowOp('+', x1, x2) == s
  {
  }
}
