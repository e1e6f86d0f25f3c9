/** The lexical layer shared by the two expression grammars: optional and
    mandatory runs of spaces, and the operator symbol. */
module Lexical {
  import opened Results
  import opened Core
  import opened Combinators
  import opened CombinatorLaws
  import opened CoreLaws

  /** `_`: skips every leading space; it never fails. */
  function Ws(s: string): (r: Result<()>)
    ensures r == Success((), s[LeadingCount(s, ' ')..])
  {
    SkippingChars(' ', s);
    MaximalMunchDiscard(Char(' '))(s)
  }

  /** `$_`: one space, then every space after it. */
  function Ws1(s: string): (r: Result<()>)
    ensures r.Success? <==> 0 < |s| && s[0] == ' '
    ensures r.Success? ==> 0 < LeadingCount(s, ' ') && r.rest == s[LeadingCount(s, ' ')..]
  {
    var r := Second(Char(' '), Ws)(s);
    assert r.Success? ==> r.rest == s[LeadingCount(s, ' ')..] by {
      if r.Success? {
        DropDrop(s, 1, LeadingCount(s[1..], ' '));
      }
    }
    r
  }

  /** `operator`: a `+` or a `*`. */
  function Operator(s: string): (r: Result<char>)
    ensures r.Success? <==> 0 < |s| && (s[0] == '+' || s[0] == '*')
    ensures r.Success? ==> r.val == s[0] && r.rest == s[1..]
  {
    Or(Char('+'), Char('*'))(s)
  }

  lemma LexicalConsumption()
    ensures Consumes(Ws)
    ensures StrictlyConsumes(Ws1)
    ensures StrictlyConsumes(Operator)
  {
    forall s | Ws(s).Success? ensures IsSuffix(Ws(s).rest, s) {
      SuffixOfDrop(s, LeadingCount(s, ' '));
    }
    forall s | Ws1(s).Success? ensures IsSuffix(Ws1(s).rest, s) && |Ws1(s).rest| < |s| {
      SuffixOfDrop(s, LeadingCount(s, ' '));
    }
  }

  /** A run of spaces, possibly empty. */
  predicate Spaces(u: string)
  {
    forall i | 0 <= i < |u| :: u[i] == ' '
  }

  /** The run of `k` spaces. */
  function Blanks(k: nat): (u: string)
    ensures |u| == k
  {
    seq(k, i => ' ')
  }

  lemma BlanksAreSpaces(k: nat)
    ensures Spaces(Blanks(k))
  {
  }

  /** Spaces are skipped, and nothing else is. */
  lemma WsStopsAtNonSpace(u: string, t: string)
    requires Spaces(u)
    requires |t| == 0 || t[0] != ' '
    ensures Ws(u + t) == Success((), t)
  {
    assert (u + t)[|u|..] == t;
  }

  /** `_` leaves a text that does not start with a space as it is. */
  lemma WsNone(t: string)
    requires |t| == 0 || t[0] != ' '
    ensures Ws(t) == Success((), t)
  {
    assert t[0..] == t;
  }

  /** `_ p _ end`, once the leading `_` leaves `s1`, `p` reads `v` from it
      leaving `t`, and the trailing `_` leaves `t2`: it reads `v` exactly
      when nothing is left. */
  lemma PaddedRuns<A>(p: Parser<A>, s: string, s1: string, v: A, t: string, t2: string)
    requires Ws(s) == Success((), s1)
    requires p(s1).Success? && p(s1).val == v && p(s1).rest == t
    requires Ws(t) == Success((), t2)
    ensures |t2| == 0 ==> First(First(Second(Ws, p), Ws), End)(s) == Success(v, "")
    ensures 0 < |t2| ==> First(First(Second(Ws, p), Ws), End)(s).Failure?
  {
    FirstSecondRun(Ws, p, s);
    FirstSecondRun(Second(Ws, p), Ws, s);
    FirstSecondRun(First(Second(Ws, p), Ws), End, s);
  }

  /** `$_` before a word that does not start with a space reads one space. */
  lemma OneSpace(x: string, y: string)
    requires 0 < |x| && x[0] != ' '
    ensures Ws1(" " + x + y) == Success((), x + y)
  {
    var s := " " + x + y;
    assert s[1..] == x + y;
    assert (x + y)[0] == x[0];
  }

  /** `$_` reads a whole nonempty run of spaces and stops at the first
      character that is not a space. */
  lemma Ws1Reads(u: string, x: string, y: string)
    requires Spaces(u) && 0 < |u|
    requires 0 < |x| && x[0] != ' '
    ensures Ws1(u + (x + y)) == Success((), x + y)
  {
    assert (x + y)[0] == x[0];
    WsStopsAtNonSpace(u, x + y);
  }

  lemma WsExamples(s: string, t: string)
    requires s == "   x" && t == "x"
    ensures Ws(s) == Success((), "x")
    ensures Ws(t) == Success((), "x")
    ensures Ws1(t).Failure?
  {
    var u := "   ";
    assert Spaces(u);
    WsStopsAtNonSpace(u, "x");
    assert s == u + "x";
    WsStopsAtNonSpace("", "x");
    assert t == "" + "x";
  }
}
