/** The value a parser produces: either a failure carrying an error, or a
    success carrying the parsed value and the unconsumed rest of the input.
    Parsers themselves are pure functions from the input string to such a
    result, and the predicates at the end of this module describe the
    "only consumes a prefix" discipline every parser of the library keeps.
 */
module Results {

  datatype Option<+T> = None | Some(value: T)

  /** Error payloads. Primitive parsers fail with a text message; ordered
      choice aggregates the errors of every alternative it tried, in order. */
  datatype Error = Message(text: string) | Alternatives(errors: seq<Error>)

  /** `failure(message)` and `success({val, rest})`: the only two ways a
      parse result is built. */
  datatype Result<+A> = Failure(message: Error) | Success(val: A, rest: string)

  /** A parser of `A`s: consumes a prefix of its input. */
  type Parser<A> = string -> Result<A>

  /** The `hasSucceeded` test of a result. */
  predicate HasSucceeded<A>(r: Result<A>)
  {
    r.Success?
  }

  /** The `hasFailed` test, defined as the negation of `hasSucceeded`; it
      holds exactly of the results built by `failure`. */
  function HasFailed<A>(r: Result<A>): (b: bool)
    ensures b <==> r.Failure?
    ensures b <==> !r.Success?
  {
    !HasSucceeded(r)
  }

  /** Re-tags a failure at another value type, keeping its error. */
  function Propagate<A, B>(r: Result<A>): (f: Result<B>)
    requires r.Failure?
    ensures f.Failure? && f.message == r.message
  {
    Failure(r.message)
  }

  /** `t` is what is left of `s` after dropping some prefix of it. */
  predicate IsSuffix(t: string, s: string)
  {
    |t| <= |s| && t == s[|s| - |t|..]
  }

  /** Every success of `p` leaves a suffix of its input. */
  ghost predicate Consumes<A>(p: Parser<A>)
  {
    forall s :: p(s).Success? ==> IsSuffix(p(s).rest, s)
  }

  /** Every success of `p` leaves a strictly shorter suffix of its input:
      the condition under which repetition terminates. */
  ghost predicate StrictlyConsumes<A>(p: Parser<A>)
  {
    forall s :: p(s).Success? ==> IsSuffix(p(s).rest, s) && |p(s).rest| < |s|
  }

  /** Every continuation `f` may be run on after a success of `p` only
      consumes a prefix of its input. */
  ghost predicate ConsumesAfter<A, B>(p: Parser<A>, f: A -> Parser<B>)
  {
    forall s :: p(s).Success? ==> Consumes(f(p(s).val))
  }

  lemma StrictlyConsumesConsumes<A>(p: Parser<A>)
    requires StrictlyConsumes(p)
    ensures Consumes(p)
  {
  }

  lemma SuffixTransitive(u: string, t: string, s: string)
    requires IsSuffix(u, t) && IsSuffix(t, s)
    ensures IsSuffix(u, s)
  {
    assert s[|s| - |t|..][|t| - |u|..] == s[|s| - |u|..];
  }

  lemma SuffixOfDrop(s: string, k: nat)
    requires k <= |s|
    ensures IsSuffix(s[k..], s)
  {
  }

  /** Dropping `i` then `j` characters drops `i + j`. */
  lemma DropDrop(s: string, i: nat, j: nat)
    requires i + j <= |s|
    ensures s[i..][j..] == s[i + j..]
  {
  }

  lemma AppendAssoc(a: string, b: string, c: string)
    ensures a + b + c == a + (b + c)
  {
  }

  /** A non-empty sequence is its first element before the others. */
  lemma HeadTail<T>(xs: seq<T>)
    requires 0 < |xs|
    ensures [xs[0]] + xs[1..] == xs
  {
  }

  /** The first character of `[c] + x` and what follows it. */
  lemma AfterFirst(c: char, x: string)
    ensures ([c] + x)[0] == c && ([c] + x)[1..] == x
  {
  }

  /** Splitting the first character off a concatenation. */
  lemma SplitFirst(a: string, b: string)
    requires 0 < |a|
    ensures (a + b)[0] == a[0] && (a + b)[1..] == a[1..] + b
  {
  }

  /** A suffix of `s` that is as long as `s` is `s` itself. */
  lemma SuffixSameLength(t: string, s: string)
    requires IsSuffix(t, s) && |t| == |s|
    ensures t == s
  {
  }

  /** Two results that agree field by field are equal. */
  lemma SameResult<A>(a: Result<A>, b: Result<A>)
    requires a.Success? <==> b.Success?
    requires a.Success? ==> a.val == b.val && a.rest == b.rest
    requires a.Failure? ==> a.message == b.message
    ensures a == b
  {
  }
}
