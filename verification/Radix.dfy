/**
 Positional notation, most significant digit first, in any base of at least two.
 A digit string is the same thing as a number plus a count of leading zeros.
 */
module Radix {
  import opened Prelude

  predicate AllDigits(ds: seq<nat>, b: nat) {
    forall i :: 0 <= i < |ds| ==> ds[i] < b
  }

  /** The number a digit string denotes. */
  function Value(ds: seq<nat>, b: nat): nat {
    if ds == [] then 0 else Value(ds[..|ds| - 1], b) * b + ds[|ds| - 1]
  }

  /** The digits of `n` without leading zeros; zero has none. */
  function Digits(n: nat, b: nat): (ds: seq<nat>)
    requires 2 <= b
    ensures AllDigits(ds, b)
    ensures ds == [] <==> n == 0
    ensures ds != [] ==> ds[0] != 0
  {
    if n == 0 then []
    else
      QuotientShrinks(n, b);
      SmallQuotient(n, b);
      Digits(n / b, b) + [n % b]
  }

  /** A count of leading zeros and a number, as a digit string. */
  function Join(zeros: nat, n: nat, b: nat): (ds: seq<nat>)
    requires 2 <= b
    ensures AllDigits(ds, b)
  {
    Fill(zeros, 0) + Digits(n, b)
  }

  lemma QuotientShrinks(n: nat, b: nat)
    requires 2 <= b && 0 < n
    ensures n / b < n
  {
    var q := n / b;
    assert n == q * b + n % b;
    if n <= q {
      assert q * b >= q * 2 by { MulMonotone(q, 2, b); }
    }
  }

  lemma SmallQuotient(n: nat, b: nat)
    requires 2 <= b
    ensures n / b == 0 ==> n % b == n
  {
    assert n == n / b * b + n % b;
  }

  lemma MulMonotone(k: nat, x: nat, y: nat)
    requires x <= y
    ensures k * x <= k * y
  {
  }

  lemma DivModUnique(q: nat, d: nat, b: nat)
    requires d < b
    ensures (q * b + d) / b == q && (q * b + d) % b == d
  {
    var n := q * b + d;
    var q', d' := n / b, n % b;
    assert n == q' * b + d';
    if q < q' {
      MulMonotone(b, q + 1, q');
      assert false;
    } else if q' < q {
      MulMonotone(b, q' + 1, q);
      assert false;
    }
  }

  lemma ValueSnoc(ds: seq<nat>, d: nat, b: nat)
    ensures Value(ds + [d], b) == Value(ds, b) * b + d
  {
    assert (ds + [d])[..|ds|] == ds;
  }

  lemma Euclid(n: nat, b: nat)
    requires 2 <= b
    ensures n / b * b + n % b == n
  {
  }

  lemma {:induction false} ValueOfDigits(n: nat, b: nat)
    requires 2 <= b
    ensures Value(Digits(n, b), b) == n
    decreases n
  {
    if n != 0 {
      QuotientShrinks(n, b);
      var q, d := n / b, n % b;
      ValueOfDigits(q, b);
      ValueSnoc(Digits(q, b), d, b);
      Euclid(n, b);
    }
  }

  lemma {:induction false} ValuePositive(ds: seq<nat>, b: nat)
    requires 2 <= b && ds != [] && ds[0] != 0
    ensures 0 < Value(ds, b)
  {
    if |ds| > 1 {
      ValuePositive(ds[..|ds| - 1], b);
      MulMonotone(Value(ds[..|ds| - 1], b), 1, b);
    } else {
      assert Value(ds[..0], b) == 0;
    }
  }

  /** A digit string without leading zeros is the digits of its value. */
  lemma {:induction false} DigitsOfValue(ds: seq<nat>, b: nat)
    requires 2 <= b && AllDigits(ds, b)
    requires ds != [] ==> ds[0] != 0
    ensures Digits(Value(ds, b), b) == ds
    decreases |ds|
  {
    if ds != [] {
      var front, last := ds[..|ds| - 1], ds[|ds| - 1];
      var v := Value(front, b);
      DigitsOfValue(front, b);
      DivModUnique(v, last, b);
      ValuePositive(ds, b);
      assert ds == front + [last];
    }
  }

  lemma {:induction false} ValueSkipsZeros(zeros: nat, ds: seq<nat>, b: nat)
    ensures Value(Fill(zeros, 0) + ds, b) == Value(ds, b)
    decreases |ds|, zeros
  {
    var all := Fill(zeros, 0) + ds;
    if ds != [] {
      assert all[..|all| - 1] == Fill(zeros, 0) + ds[..|ds| - 1];
      ValueSkipsZeros(zeros, ds[..|ds| - 1], b);
    } else if zeros > 0 {
      assert all[..|all| - 1] == Fill(zeros - 1, 0) + ds;
      ValueSkipsZeros(zeros - 1, ds, b);
    }
  }

  /** Splitting a joined string recovers both parts. */
  lemma SplitJoin(zeros: nat, n: nat, b: nat)
    requires 2 <= b
    ensures LeadingCount(Join(zeros, n, b), 0) == zeros
    ensures Value(Join(zeros, n, b), b) == n
  {
    var ds := Join(zeros, n, b);
    assert ds[..zeros] == Fill(zeros, 0);
    LeadingCountIs(ds, 0, zeros);
    ValueSkipsZeros(zeros, Digits(n, b), b);
    ValueOfDigits(n, b);
  }

  /** Every digit string is the join of its two parts. */
  lemma JoinSplit(ds: seq<nat>, b: nat)
    requires 2 <= b && AllDigits(ds, b)
    ensures Join(LeadingCount(ds, 0), Value(ds, b), b) == ds
  {
    var z := LeadingCount(ds, 0);
    assert ds == Fill(z, 0) + ds[z..];
    ValueSkipsZeros(z, ds[z..], b);
    DigitsOfValue(ds[z..], b);
  }

  function Pow(b: nat, e: nat): nat {
    if e == 0 then 1 else b * Pow(b, e - 1)
  }

  lemma {:induction false} PowSum(b: nat, x: nat, y: nat)
    ensures Pow(b, x + y) == Pow(b, x) * Pow(b, y)
    decreases x
  {
    if x > 0 {
      PowSum(b, x - 1, y);
      calc {
        Pow(b, x + y);
        b * Pow(b, x - 1 + y);
        b * (Pow(b, x - 1) * Pow(b, y));
        b * Pow(b, x - 1) * Pow(b, y);
        Pow(b, x) * Pow(b, y);
      }
    }
  }

  /** The value of a concatenation. */
  lemma {:induction false} ValueConcat(hi: seq<nat>, lo: seq<nat>, b: nat)
    ensures Value(hi + lo, b) == Value(hi, b) * Pow(b, |lo|) + Value(lo, b)
    decreases |lo|
  {
    if lo == [] {
      assert hi + lo == hi;
    } else {
      var lo', d := lo[..|lo| - 1], lo[|lo| - 1];
      var all := hi + lo;
      assert all[..|all| - 1] == hi + lo';
      ValueConcat(hi, lo', b);
      var h, p := Value(hi, b), Pow(b, |lo'|);
      assert Value(all, b) == (h * p + Value(lo', b)) * b + d;
      assert Pow(b, |lo|) == b * p && Value(lo, b) == Value(lo', b) * b + d;
      hide *;
      ShiftByOne(h, p, Value(lo', b), b, d);
    }
  }

  /** The leading digit counts for its place: this and the empty string determine `Value`. */
  lemma LeadingPlace(d: nat, ds: seq<nat>, b: nat)
    ensures Value([d] + ds, b) == d * Pow(b, |ds|) + Value(ds, b)
    ensures Value([], b) == 0
  {
    ValueSnoc([], d, b);
    assert [] + [d] == [d];
    assert Value([d], b) == d;
    hide *;
    ValueConcat([d], ds, b);
  }

  lemma ShiftByOne(h: nat, p: nat, v: nat, b: nat, d: nat)
    ensures (h * p + v) * b + d == h * (b * p) + (v * b + d)
  {
    MulShuffle(h, p, b);
  }

  lemma MulShuffle(h: nat, p: nat, b: nat)
    ensures h * p * b == h * (b * p)
  {
  }

  /** A string of `k` digits denotes a number below `b` to the power `k`. */
  lemma {:induction false} ValueBound(ds: seq<nat>, b: nat)
    requires 2 <= b && AllDigits(ds, b)
    ensures Value(ds, b) < Pow(b, |ds|)
    decreases |ds|
  {
    if ds != [] {
      var front := ds[..|ds| - 1];
      ValueBound(front, b);
      DigitBound(Value(front, b), ds[|ds| - 1], Pow(b, |front|), b);
    }
  }

  lemma DigitBound(v: nat, d: nat, p: nat, b: nat)
    requires v < p && d < b
    ensures v * b + d < b * p
  {
    MulMonotone(b, v + 1, p);
  }
}
