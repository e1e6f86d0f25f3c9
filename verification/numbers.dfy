/** Natural numbers: `zeroes` counts leading zeroes, `natOfDigits` weighs a
    digit list by place value, and `nat` reads a decimal numeral, letting any
    number of leading zeroes collapse. `ShowNat` is the decimal rendering the
    expression printers use, and `nat` reads it back. */
module Numbers {
  import opened Results
  import opened Core
  import opened Combinators
  import opened CombinatorLaws

  // ===== zeroes =====

  /** `zeroes`: never fails, counts and consumes the leading `'0'`s. */
  function Zeroes(s: string): (r: Result<nat>)
    ensures r.Success?
    ensures r.val == LeadingCount(s, '0') && r.rest == s[r.val..]
  {
    CountingReduce('0', 0, s);
    MaximalReduce(Char('0'), 0, CountOne)(s)
  }

  // ===== natOfDigits =====

  function Reverse<T>(xs: seq<T>): (ys: seq<T>)
    ensures |ys| == |xs|
  {
    if |xs| == 0 then [] else Reverse(xs[1..]) + [xs[0]]
  }

  function Pow10(i: nat): nat
  {
    if i == 0 then 1 else 10 * Pow10(i - 1)
  }

  /** The loop of `natOfDigits` over the reversed digits: the digit at index
      `k` of `rs` weighs `10` to the power `i + k`. */
  function PlaceSum(rs: seq<nat>, i: nat): nat
  {
    if |rs| == 0 then 0 else rs[0] * Pow10(i) + PlaceSum(rs[1..], i + 1)
  }

  /** `natOfDigits`: the digits, most significant first, weighed by place. */
  function NatOfDigits(ds: seq<nat>): nat
  {
    PlaceSum(Reverse(ds), 0)
  }

  lemma {:induction false} PlaceSumSnoc(rs: seq<nat>, v: nat, i: nat)
    ensures PlaceSum(rs + [v], i) == PlaceSum(rs, i) + v * Pow10(i + |rs|)
    decreases |rs|
  {
    if |rs| == 0 {
      assert rs + [v] == [v];
      assert [v][1..] == [];
    } else {
      assert (rs + [v])[1..] == rs[1..] + [v];
      PlaceSumSnoc(rs[1..], v, i + 1);
    }
  }

  /** A leading digit weighs ten to the number of digits after it. */
  lemma NatOfDigitsCons(v: nat, vs: seq<nat>)
    ensures NatOfDigits([v] + vs) == v * Pow10(|vs|) + NatOfDigits(vs)
  {
    assert ([v] + vs)[1..] == vs;
    PlaceSumSnoc(Reverse(vs), v, 0);
  }

  // ===== Decimal numerals =====

  /** Reading the digit characters `ds` after the digits worth `acc`. */
  function DecimalFrom(acc: nat, ds: string): nat
    requires AllDigits(ds)
    decreases |ds|
  {
    if |ds| == 0 then acc else DecimalFrom(10 * acc + (ds[0] as int - '0' as int), ds[1..])
  }

  /** The value of a decimal numeral, most significant digit first. */
  function DecimalValue(ds: string): nat
    requires AllDigits(ds)
  {
    DecimalFrom(0, ds)
  }

  lemma {:induction false} DecimalFromIsPlaceValue(acc: nat, ds: string)
    requires AllDigits(ds)
    ensures DecimalFrom(acc, ds) == acc * Pow10(|ds|) + NatOfDigits(ValuesOf(ds))
    decreases |ds|
  {
    if |ds| != 0 {
      var v: nat := ds[0] as int - '0' as int;
      var rest := ds[1..];
      DecimalFromIsPlaceValue(10 * acc + v, rest);
      NatOfDigitsCons(v, ValuesOf(rest));
      assert Pow10(|ds|) == 10 * Pow10(|rest|);
      calc {
        DecimalFrom(acc, ds);
        (10 * acc + v) * Pow10(|rest|) + NatOfDigits(ValuesOf(rest));
        { assert (10 * acc + v) * Pow10(|rest|) == acc * (10 * Pow10(|rest|)) + v * Pow10(|rest|); }
        acc * Pow10(|ds|) + (v * Pow10(|rest|) + NatOfDigits(ValuesOf(rest)));
      }
    }
  }

  /** `natOfDigits` of the digit values of a numeral is the numeral's value. */
  lemma NatOfDigitsIsDecimal(ds: string)
    requires AllDigits(ds)
    ensures NatOfDigits(ValuesOf(ds)) == DecimalValue(ds)
  {
    DecimalFromIsPlaceValue(0, ds);
  }

  lemma {:induction false} DecimalFromSnoc(acc: nat, ds: string, c: char)
    requires AllDigits(ds) && '0' <= c <= '9'
    ensures AllDigits(ds + [c])
    ensures DecimalFrom(acc, ds + [c]) == 10 * DecimalFrom(acc, ds) + (c as int - '0' as int)
    decreases |ds|
  {
    if |ds| == 0 {
      assert ds + [c] == [c];
    } else {
      assert (ds + [c])[1..] == ds[1..] + [c];
      DecimalFromSnoc(10 * acc + (ds[0] as int - '0' as int), ds[1..], c);
    }
  }

  /** Leading zeroes do not change the value of a numeral. */
  lemma {:induction false} DecimalFromZeroes(s: string, z: nat)
    requires z <= |s| && AllDigits(s)
    requires forall i | 0 <= i < z :: s[i] == '0'
    ensures DecimalFrom(0, s) == DecimalFrom(0, s[z..])
    decreases z
  {
    if z != 0 {
      DecimalFromZeroes(s[1..], z - 1);
      assert s[1..][z - 1..] == s[z..];
    }
  }

  /** The number of decimal digits at the front of `s`. */
  function LeadingDigits(s: string): (k: nat)
    ensures k <= |s|
    ensures AllDigits(s[..k])
    ensures k == |s| || !('0' <= s[k] <= '9')
  {
    if 0 < |s| && '0' <= s[0] <= '9' then
      var k := 1 + LeadingDigits(s[1..]);
      assert s[..k] == [s[0]] + s[1..][..k - 1];
      k
    else 0
  }

  lemma {:induction false} LeadingDigitsSplit(s: string, k: nat)
    requires k <= |s| && AllDigits(s[..k])
    ensures LeadingDigits(s) == k + LeadingDigits(s[k..])
    decreases k
  {
    if k != 0 {
      assert s[1..][..k - 1] == s[1..k];
      LeadingDigitsSplit(s[1..], k - 1);
      assert s[1..][k - 1..] == s[k..];
    }
  }

  /** `maximalMunch(digit)` reads the whole run of digits at the front. */
  lemma MunchLeadingDigits(s: string)
    ensures StrictlyConsumes(Digit)
    ensures MunchFrom(Digit, s).val == ValuesOf(s[..LeadingDigits(s)])
    ensures MunchFrom(Digit, s).rest == s[LeadingDigits(s)..]
  {
    var k := LeadingDigits(s);
    assert s == s[..k] + s[k..];
    MunchDigits(s[..k], s[k..]);
  }

  // ===== nat =====

  /** After `z` zeroes and a digit, the numeral runs on through the digits
      that follow the digit. */
  lemma NumeralAfterZeroes(s: string, z: nat)
    requires z < |s| && '0' <= s[z] <= '9'
    requires forall i | 0 <= i < z :: s[i] == '0'
    ensures
      var k := LeadingDigits(s[z + 1..]);
      && LeadingDigits(s) == z + 1 + k
      && s[z + 1..][k..] == s[LeadingDigits(s)..]
  {
    ZeroesThenDigit(s, z);
    LeadingDigitsSplit(s, z + 1);
    DropDrop(s, z + 1, LeadingDigits(s[z + 1..]));
  }

  lemma ZeroesThenDigit(s: string, z: nat)
    requires z < |s| && '0' <= s[z] <= '9'
    requires forall i | 0 <= i < z :: s[i] == '0'
    ensures AllDigits(s[..z + 1])
  {
  }

  /** The numeral of `s` is worth its first non-zero-prefixed digit, worth
      `d`, and the digits after it, worth `vs`, weighed by `natOfDigits`. */
  lemma NumeralValueAfterZeroes(s: string, z: nat, d: nat, vs: seq<nat>)
    requires z < |s| && '0' <= s[z] <= '9'
    requires forall i | 0 <= i < z :: s[i] == '0'
    requires d == s[z] as int - '0' as int
    requires vs == ValuesOf(s[z + 1..][..LeadingDigits(s[z + 1..])])
    ensures
      var n := z + 1 + LeadingDigits(s[z + 1..]);
      && n <= |s| && AllDigits(s[..n])
      && NatOfDigits([d] + vs) == DecimalValue(s[..n])
  {
    var s2 := s[z + 1..];
    var k := LeadingDigits(s2);
    var n := z + 1 + k;
    var numeral := s[..n];
    var tail := [s[z]] + s2[..k];
    assert numeral == s[..z] + tail;
    assert AllDigits(numeral);
    assert numeral[z..] == tail;
    assert tail[1..] == s2[..k];
    assert ValuesOf(tail) == [d] + vs;
    NatOfDigitsIsDecimal(tail);
    DecimalFromZeroes(numeral, z);
  }

  /** The branch of `nat` where no digit follows the leading zeroes. */
  lemma NatZeroBranch(s: string)
    requires Digit(s[LeadingCount(s, '0')..]).Failure?
    ensures LeadingDigits(s) == LeadingCount(s, '0')
    ensures DecimalValue(s[..LeadingCount(s, '0')]) == 0
  {
    var z := LeadingCount(s, '0');
    LeadingDigitsSplit(s, z);
    DecimalFromZeroes(s[..z], z);
    assert s[..z][z..] == [];
  }

  /** `nat`: optional leading zeroes, then a digit and the run of digits
      after it, weighed by `natOfDigits`; zeroes with no digit after them
      read as 0, and no zero and no digit is a failure. */
  function Nat(s: string): Result<nat>
  {
    var zs := Zeroes(s);
    var s1 := zs.rest;
    var v := Digit(s1);
    if v.Success? then
      DigitStrictlyConsumes();
      var w := MaximalMunch(Digit)(v.rest);
      Success(NatOfDigits([v.val] + w.val), w.rest)
    else if zs.val == 0 then
      Failure(Message("PARSING ERROR: Expected a natural number"))
    else
      Success(0, s1)
  }

  /** `nat` reads the whole numeral at the front of its input, leading
      zeroes included, yields its value and leaves what follows; it fails
      exactly when the input does not start with a digit. */
  lemma NatReads(s: string)
    ensures Nat(s).Failure? <==> LeadingDigits(s) == 0
    ensures Nat(s).Success? ==>
      && Nat(s).rest == s[LeadingDigits(s)..]
      && Nat(s).val == DecimalValue(s[..LeadingDigits(s)])
  {
    var z := LeadingCount(s, '0');
    if z < |s| && '0' <= s[z] <= '9' {
      NatReadsNumeral(s, z);
    } else {
      NatReadsZeroes(s, z);
    }
  }

  lemma NatReadsZeroes(s: string, z: nat)
    requires z == LeadingCount(s, '0') && !(z < |s| && '0' <= s[z] <= '9')
    ensures Nat(s).Failure? <==> LeadingDigits(s) == 0
    ensures Nat(s).Success? ==>
      && Nat(s).rest == s[LeadingDigits(s)..]
      && Nat(s).val == DecimalValue(s[..LeadingDigits(s)])
  {
    NoDigitAt(s, z);
    NatZeroBranch(s);
  }

  lemma NatReadsNumeral(s: string, z: nat)
    requires z == LeadingCount(s, '0') && z < |s| && '0' <= s[z] <= '9'
    ensures Nat(s).Success? && LeadingDigits(s) != 0
    ensures Nat(s).rest == s[LeadingDigits(s)..]
    ensures Nat(s).val == DecimalValue(s[..LeadingDigits(s)])
  {
    NumeralAfterZeroes(s, z);
    NatDigitBranch(s, z);
  }

  /** The branch of `nat` where a digit follows the `z` leading zeroes: the
      numeral that digit starts is read. */
  lemma NatDigitBranch(s: string, z: nat)
    requires z == LeadingCount(s, '0') && z < |s| && '0' <= s[z] <= '9'
    ensures
      var k := LeadingDigits(s[z + 1..]);
      && z + 1 + k <= |s| && AllDigits(s[..z + 1 + k])
      && Nat(s).Success?
      && Nat(s).val == DecimalValue(s[..z + 1 + k])
      && Nat(s).rest == s[z + 1..][k..]
  {
    var s2 := s[z + 1..];
    DigitAt(s, z);
    MunchLeadingDigits(s2);
    NatOnDigit(s);
    var v := Digit(Zeroes(s).rest);
    NumeralValueAfterZeroes(s, z, v.val, MunchFrom(Digit, v.rest).val);
  }

  /** `nat` once a digit follows the zeroes, in terms of the steps it takes. */
  lemma NatOnDigit(s: string)
    requires Digit(Zeroes(s).rest).Success?
    ensures StrictlyConsumes(Digit)
    ensures
      var v := Digit(Zeroes(s).rest);
      && Nat(s).Success?
      && Nat(s).val == NatOfDigits([v.val] + MunchFrom(Digit, v.rest).val)
      && Nat(s).rest == MunchFrom(Digit, v.rest).rest
  {
    DigitStrictlyConsumes();
  }

  /** On success `nat` leaves a strict suffix that does not start with a digit. */
  lemma NatStopsAtNonDigit(s: string)
    requires Nat(s).Success?
    ensures IsSuffix(Nat(s).rest, s) && |Nat(s).rest| < |s|
    ensures |Nat(s).rest| == 0 || !('0' <= Nat(s).rest[0] <= '9')
  {
    NatReads(s);
  }

  lemma NatStrictlyConsumes()
    ensures StrictlyConsumes(Nat)
  {
    forall s | Nat(s).Success? ensures IsSuffix(Nat(s).rest, s) && |Nat(s).rest| < |s| {
      NatStopsAtNonDigit(s);
    }
  }

  // ===== Decimal rendering =====

  function DigitChar(d: nat): (c: char)
    requires d <= 9
    ensures '0' <= c <= '9' && c as int - '0' as int == d
  {
    ('0' as int + d) as char
  }

  /** `String(n)` for a natural number: its decimal numeral, which reads
      back as `n`. */
  function ShowNat(n: nat): (t: string)
    ensures 0 < |t| && AllDigits(t)
    ensures DecimalValue(t) == n
  {
    if n < 10 then
      var t := [DigitChar(n)];
      assert t[1..] == [];
      assert DecimalFrom(0, t) == DecimalFrom(n, []);
      t
    else
      var t := ShowNat(n / 10);
      DecimalFromSnoc(0, t, DigitChar(n % 10));
      t + [DigitChar(n % 10)]
  }

  /** `nat` reads back the numeral of `n` and stops where it ends. */
  lemma NatRoundTrip(n: nat, t: string)
    requires |t| == 0 || !('0' <= t[0] <= '9')
    ensures Nat(ShowNat(n) + t) == Success(n, t)
  {
    var s := ShowNat(n) + t;
    var k := |ShowNat(n)|;
    assert s[..k] == ShowNat(n);
    assert s[k..] == t;
    LeadingDigitsSplit(s, k);
    NatReads(s);
  }

  /** Leading zeroes collapse: after them `nat` reads what follows, or
      yields 0 when no digit follows. */
  lemma NatSkipsZeroes(zs: string, t: string)
    requires 0 < |zs| && forall i | 0 <= i < |zs| :: zs[i] == '0'
    ensures Nat(zs + t).Success?
    ensures Nat(t).Success? ==> Nat(zs + t).val == Nat(t).val && Nat(zs + t).rest == Nat(t).rest
    ensures Nat(t).Failure? ==> Nat(zs + t).val == 0 && Nat(zs + t).rest == t
  {
    ZeroPrefix(zs, t);
    NatReads(zs + t);
    NatReads(t);
  }

  /** A numeral after a run of zeroes ends where the numeral after them
      ends, and has the same value. */
  lemma ZeroPrefix(zs: string, t: string)
    requires 0 < |zs| && forall i | 0 <= i < |zs| :: zs[i] == '0'
    ensures
      var s := zs + t;
      && LeadingDigits(s) == |zs| + LeadingDigits(t)
      && s[LeadingDigits(s)..] == t[LeadingDigits(t)..]
      && DecimalValue(s[..LeadingDigits(s)]) == DecimalValue(t[..LeadingDigits(t)])
  {
    var s := zs + t;
    var z := |zs|;
    assert s[..z] == zs;
    LeadingDigitsSplit(s, z);
    assert s[z..] == t;
    var k := LeadingDigits(t);
    assert s[..z + k][z..] == t[..k];
    assert s[z + k..] == t[k..];
    DecimalFromZeroes(s[..z + k], z);
  }

  // ===== Behaviour fixed by the test harness =====

  lemma NatExample(s: string)
    requires s == "123xxx"
    ensures Nat(s) == Success(123, "xxx")
  {
    assert ShowNat(123) == "123";
    assert s == ShowNat(123) + "xxx";
    NatRoundTrip(123, "xxx");
  }

  lemma NatRejects(s: string)
    requires s == "xxx" || s == "" || s == "-5"
    ensures Nat(s).Failure?
  {
    NatReads(s);
  }

  lemma NatZeroesExample(s: string)
    requires s == "00123xxx"
    ensures Nat(s) == Success(123, "xxx")
  {
    assert s == "00" + "123xxx";
    NatSkipsZeroes("00", "123xxx");
    NatExample("123xxx");
  }

  lemma NatOnlyZeroesExample(s: string, zs: string)
    requires zs == "0" || zs == "00"
    requires s == zs + "xxx"
    ensures Nat(s) == Success(0, "xxx")
  {
    NatSkipsZeroes(zs, "xxx");
    NatRejects("xxx");
  }
}
