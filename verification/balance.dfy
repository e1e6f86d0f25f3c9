/** The language { aⁿbⁿ | n ≥ 0 }: count the `a`s, count the `b`s after
    them, and succeed only when the two counts agree. */
module Balance {
  import opened Results
  import opened Core
  import opened Combinators
  import opened CoreLaws
  import opened CombinatorLaws

  /** `as`: counts, and consumes, the leading `a`s; it never fails. */
  function As(s: string): (r: Result<nat>)
    ensures r.Success?
    ensures r.val == LeadingCount(s, 'a') && r.rest == s[r.val..]
  {
    CountingReduce('a', 0, s);
    MaximalReduce(Char('a'), 0, CountOne)(s)
  }

  /** `bs`: counts, and consumes, the leading `b`s; it never fails. */
  function Bs(s: string): (r: Result<nat>)
    ensures r.Success?
    ensures r.val == LeadingCount(s, 'b') && r.rest == s[r.val..]
  {
    CountingReduce('b', 0, s);
    MaximalReduce(Char('b'), 0, CountOne)(s)
  }

  /** The last step of `balance`: equal counts succeed, others fail. */
  function Verdict(counts: (nat, nat)): Parser<string>
  {
    if counts.0 == counts.1 then Succeed("they are the same")
    else Fail(Message("they ain't the same"))
  }

  /** The middle step of `balance`: `bs`, paired with the count `n`. */
  function WithBs(n: nat): Parser<(nat, nat)>
  {
    Map(Bs, m => (n, m))
  }

  /** `balance`: `as`, then `bs` paired with it, then the verdict. */
  function Balance(s: string): Result<string>
  {
    Then(Then(As, WithBs), Verdict)(s)
  }

  /** What `balance` should do, stated on counts: read every leading `a`
      and every `b` after them; succeed exactly when there are as many of
      each, leaving the input after the `b`s. */
  function BalanceSpec(s: string): Result<string>
  {
    var na := LeadingCount(s, 'a');
    var nb := LeadingCount(s[na..], 'b');
    if na == nb then Success("they are the same", s[na + nb..])
    else Failure(Message("they ain't the same"))
  }

  /** `as` then `bs` reads the two counts and leaves the input after the
      `b`s. */
  lemma CountsRead(s: string, na: nat, nb: nat)
    requires na == LeadingCount(s, 'a') && nb == LeadingCount(s[na..], 'b')
    ensures Then(As, WithBs)(s).Success?
    ensures Then(As, WithBs)(s).val == (na, nb)
    ensures Then(As, WithBs)(s).rest == s[na + nb..]
  {
    var t := s[na..];
    ThenRuns(As, WithBs, s);
    assert WithBs(na)(t) == Success((na, nb), t[nb..]);
    DropDrop(s, na, nb);
  }

  /** The verdict runs on whatever the counting parser `p` read. */
  lemma VerdictAfter(p: Parser<(nat, nat)>, s: string, c: (nat, nat), u: string)
    requires p(s).Success? && p(s).val == c && p(s).rest == u
    ensures Then(p, Verdict)(s) == Verdict(c)(u)
  {
    ThenRuns(p, Verdict, s);
  }

  /** `balance` hands the two counts and the input after the `b`s to the
      verdict. */
  lemma BalanceCounts(s: string, na: nat, nb: nat)
    requires na == LeadingCount(s, 'a') && nb == LeadingCount(s[na..], 'b')
    ensures Balance(s) == Verdict((na, nb))(s[na + nb..])
  {
    CountsRead(s, na, nb);
    VerdictAfter(Then(As, WithBs), s, (na, nb), s[na + nb..]);
  }

  /** The verdict succeeds, on the input it is given, exactly on equal
      counts. */
  lemma VerdictOutcome(c: (nat, nat), u: string)
    ensures c.0 == c.1 ==> Verdict(c)(u).Success? && Verdict(c)(u).val == "they are the same" && Verdict(c)(u).rest == u
    ensures c.0 != c.1 ==> Verdict(c)(u).Failure? && Verdict(c)(u).message == Message("they ain't the same")
  {
  }

  /** `balance` is its specification on every input. */
  lemma BalanceRuns(s: string)
    ensures Balance(s) == BalanceSpec(s)
  {
    var na := LeadingCount(s, 'a');
    var nb := LeadingCount(s[na..], 'b');
    BalanceCounts(s, na, nb);
    VerdictOutcome((na, nb), s[na + nb..]);
    SameResult(Balance(s), BalanceSpec(s));
  }

  /** `n` copies of `c`. */
  function Rep(c: char, n: nat): (r: string)
    ensures |r| == n
    ensures forall i | 0 <= i < n :: r[i] == c
  {
    seq(n, _ => c)
  }

  /** The copies of `c` in front of `t` add to the count of `c`s. */
  lemma {:induction false} LeadingCountRep(c: char, n: nat, t: string)
    ensures LeadingCount(Rep(c, n) + t, c) == n + LeadingCount(t, c)
    decreases n
  {
    if n != 0 {
      assert (Rep(c, n) + t)[1..] == Rep(c, n - 1) + t;
      LeadingCountRep(c, n - 1, t);
    } else {
      assert Rep(c, n) + t == t;
    }
  }

  lemma SpecSound(s: string)
    requires BalanceSpec(s).Success? && BalanceSpec(s).rest == ""
    ensures s == Rep('a', LeadingCount(s, 'a')) + Rep('b', LeadingCount(s, 'a'))
  {
    var n := LeadingCount(s, 'a');
    var t := s[n..];
    var nb := LeadingCount(t, 'b');
    DropDrop(s, n, nb);
    assert |s| == 2 * n;
    assert s[..n] == Rep('a', n);
    assert t == Rep('b', n);
    assert s == s[..n] + t;
  }

  /** A word `balance` reads to the end is aⁿbⁿ for some `n`. */
  lemma BalanceSound(s: string)
    requires Balance(s).Success? && Balance(s).rest == ""
    ensures s == Rep('a', LeadingCount(s, 'a')) + Rep('b', LeadingCount(s, 'a'))
  {
    BalanceRuns(s);
    SpecSound(s);
  }

  lemma SpecComplete(n: nat)
    ensures BalanceSpec(Rep('a', n) + Rep('b', n)) == Success("they are the same", "")
  {
    var s := Rep('a', n) + Rep('b', n);
    LeadingCountRep('a', n, Rep('b', n));
    assert LeadingCount(Rep('b', n), 'a') == 0;
    assert s[n..] == Rep('b', n);
    LeadingCountRep('b', n, "");
    assert Rep('b', n) + "" == Rep('b', n);
  }

  /** Every aⁿbⁿ is read to the end by `balance`. */
  lemma BalanceComplete(n: nat)
    ensures Balance(Rep('a', n) + Rep('b', n)) == Success("they are the same", "")
  {
    BalanceRuns(Rep('a', n) + Rep('b', n));
    SpecComplete(n);
  }

  /** `balance` reads a whole word exactly when the word is aⁿbⁿ. */
  lemma BalanceAcceptsExactly(s: string)
    ensures (Balance(s).Success? && Balance(s).rest == "") <==>
      exists n: nat :: s == Rep('a', n) + Rep('b', n)
  {
    if Balance(s).Success? && Balance(s).rest == "" {
      BalanceSound(s);
    }
    if exists n: nat :: s == Rep('a', n) + Rep('b', n) {
      var n: nat :| s == Rep('a', n) + Rep('b', n);
      BalanceComplete(n);
    }
  }

  // ===== Behaviour the grammar's comments describe =====

  lemma CountExample(s: string)
    requires s == "aaax"
    ensures As(s) == Success(3, "x")
  {
    LeadingCountRep('a', 3, "x");
    assert s == Rep('a', 3) + "x";
  }

  lemma BalanceExamples(s: string)
    requires s == "aaabbb"
    ensures Balance(s) == Success("they are the same", "")
    ensures Balance("") == Success("they are the same", "")
  {
    assert s == Rep('a', 3) + Rep('b', 3);
    BalanceComplete(3);
    BalanceComplete(0);
    assert Rep('a', 0) + Rep('b', 0) == "";
  }

  lemma UnbalancedExample(t: string)
    requires t == "aaaabbbbbbx"
    ensures Balance(t) == Failure(Message("they ain't the same"))
  {
    assert t == Rep('a', 4) + (Rep('b', 6) + "x");
    LeadingCountRep('a', 4, Rep('b', 6) + "x");
    assert LeadingCount(Rep('b', 6) + "x", 'a') == 0;
    assert t[4..] == Rep('b', 6) + "x";
    LeadingCountRep('b', 6, "x");
    BalanceRuns(t);
  }
}
